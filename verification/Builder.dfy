/** Building the sorted range tables from a delegated stream (internal/rir/builder.go). */
module Builder {
  import opened Wrappers
  import opened Words
  import opened Decimal
  import opened Addresses
  import opened RirTypes
  import opened Sorting
  import Parser

  // ----- numbers -----

  lemma WrapShift(x: int, k: int)
    ensures Wrap32(x + POW32 * k) == Wrap32(x)
  {
  }

  lemma AccumulateWraps(v: nat, d: nat)
    requires d < 10
    ensures Wrap32(Wrap32(10 * Wrap32(v)) + d) == Wrap32(10 * v + d)
  {
    var q := v / POW32;
    assert v == Wrap32(v) + POW32 * q;
    hide Wrap32;
    WrapAdd(10 * Wrap32(v), d);
    WrapShift(10 * Wrap32(v) + d, 10 * q);
  }

  /** Digits accumulated in a uint32, which wraps; the empty string is zero. */
  method ParseUint32(s: string) returns (n: u32, ok: bool)
    ensures ok <==> AllDigits(s)
    ensures n == if ok then Wrap32(Value(s)) else 0
  {
    n := 0;
    for i := 0 to |s|
      invariant AllDigits(s[..i]) && n == Wrap32(Value(s[..i]))
    {
      if s[i] < '0' || s[i] > '9' {
        return 0, false;
      }
      assert s[..i + 1][..i] == s[..i];
      AccumulateWraps(Value(s[..i]), DigitValue(s[i]));
      n := Wrap32(Wrap32(10 * n) + DigitValue(s[i]));
    }
    assert s[..|s|] == s;
    return n, true;
  }

  /** The inclusive end stored for count numbers from start on, in uint32 arithmetic. */
  function End32(start: u32, count: u64): u32 {
    Wrap32(Wrap32(start + Wrap32(count)) - 1)
  }

  /** The stored end is the true last number exactly when the range fits below 2^32; a count of
      2^32 starting at zero is no exception, since its truncation and the final wrap cancel. */
  lemma End32Exact(start: u32, count: u64)
    requires count >= 1
    ensures End32(start, count) == start + count - 1 <==> start + count <= POW32
  {
  }

  function Shl64(x: u64, n: nat): u64 { Wrap64(x * Pow2(n)) }

  lemma {:induction false} BitOrBound(x: nat, y: nat, k: nat)
    requires x < Pow2(k) && y < Pow2(k)
    ensures BitOr(x, y) < Pow2(k)
    decreases k
  {
    if k > 0 {
      BitOrBound(x / 2, y / 2, k - 1);
    }
  }

  function Or64(x: u64, y: u64): u64 {
    Pow2Is64();
    BitOrBound(x, y, 64);
    BitOr(x, y)
  }

  function PrefixEnd128(hi: u64, lo: u64, bits: nat): (u64, u64) {
    if bits >= 128 then (hi, lo)
    else if bits <= 64 then (Or64(hi, Wrap64(Shl64(1, 64 - bits) - 1)), Wrap64(-1))
    else (hi, Or64(lo, Wrap64(Shl64(1, 128 - bits) - 1)))
  }

  lemma MaskWrap(p: nat)
    requires 1 <= p <= POW64
    ensures Wrap64(Wrap64(1 * p) - 1) == p - 1
  {
  }

  /** The mask is k ones; shifting by the full 64 gives zero, whose predecessor is all ones. */
  lemma MaskIsOnes(k: nat)
    requires k <= 64
    ensures Wrap64(Shl64(1, k) - 1) == Pow2(k) - 1
  {
    Pow2Is64();
    Pow2Order(k, 64);
    MaskWrap(Pow2(k));
  }

  lemma TwiceWord(h: nat, p: nat)
    ensures h * (2 * p) == 2 * (h * p)
  {
  }

  lemma HalfOfWords(h: nat, l: nat, p: nat)
    ensures (h * (2 * p) + l) / 2 == h * p + l / 2
    ensures (h * (2 * p) + l) % 2 == l % 2
  {
    TwiceWord(h, p);
    HalfOfSum(h * p, l);
  }

  lemma ClearLowHalves(x: nat, k: nat)
    requires k > 0
    ensures ClearLow(x, k) == 2 * ClearLow(x / 2, k - 1)
  {
  }

  lemma {:induction false} ClearLowOver(x: nat, l: nat, k: nat)
    requires Aligned(x, k)
    ensures ClearLow(x + l, k) == x + ClearLow(l, k)
    decreases k
  {
    if k > 0 {
      assert (x + l) / 2 == x / 2 + l / 2;
      ClearLowOver(x / 2, l / 2, k - 1);
    }
  }

  /** Clearing low bits of a two-word number touches the low word only ... */
  lemma ClearLowWord(h: nat, l: nat, n: nat, k: nat)
    requires k <= n
    ensures ClearLow(h * Pow2(n) + l, k) == h * Pow2(n) + ClearLow(l, k)
  {
    hide ClearLow, Aligned, Pow2;
    MultipleAligned(n, h);
    AlignedDown(Pow2(n) * h, k, n);
    ClearLowOver(Pow2(n) * h, l, k);
  }

  /** ... until the whole low word is cleared. */
  lemma {:induction false} ClearHighWord(h: nat, l: nat, n: nat, k: nat)
    requires k >= n && l < Pow2(n)
    ensures ClearLow(h * Pow2(n) + l, k) == ClearLow(h, k - n) * Pow2(n)
    decreases n
  {
    if n > 0 {
      var p, high := Pow2(n - 1), ClearLow(h, k - n);
      assert Pow2(n) == 2 * p;
      HalfOfWords(h, l, p);
      TwiceWord(h, p);
      TwiceWord(high, p);
      ClearHighWord(h, l / 2, n - 1, k - 1);
      hide ClearLow, Pow2;
      ClearLowHalves(h * (2 * p) + l, k);
    }
  }

  function BlockEnd(x: nat, k: nat): nat { ClearLow(x, k) + (Pow2(k) - 1) }

  lemma WordOnes(c: nat, p: nat)
    ensures (c + (p - 1)) * POW64 + (POW64 - 1) == c * POW64 + (p * POW64 - 1)
    ensures Wrap64(-1) == POW64 - 1
  {
  }

  lemma HighMask(hi: u64, lo: u64, k: nat)
    requires k <= 64
    ensures Num128(Or64(hi, Wrap64(Shl64(1, k) - 1)), Wrap64(-1)) == BlockEnd(Num128(hi, lo), k + 64)
  {
    hide BitOr, ClearLow, Pow2, Shl64, Wrap64;
    MaskIsOnes(k);
    BitOrLowOnes(hi, k);
    Pow2Is64();
    ClearHighWord(hi, lo, 64, k + 64);
    Pow2Add(k, 64);
    WordOnes(ClearLow(hi, k), Pow2(k));
  }

  lemma LowMask(hi: u64, lo: u64, k: nat)
    requires k <= 64
    ensures Num128(hi, Or64(lo, Wrap64(Shl64(1, k) - 1))) == BlockEnd(Num128(hi, lo), k)
  {
    hide BitOr, ClearLow, Pow2, Shl64, Wrap64;
    MaskIsOnes(k);
    BitOrLowOnes(lo, k);
    Pow2Is64();
    ClearLowWord(hi, lo, 64, k);
  }

  /** Across the 64-bit split, the end is the last address of the aligned block around the start. */
  lemma PrefixEndIsBlockEnd(hi: u64, lo: u64, bits: nat)
    requires bits <= 128
    ensures var (eh, el) := PrefixEnd128(hi, lo, bits);
            Num128(eh, el) == BlockEnd(Num128(hi, lo), 128 - bits)
  {
    var k := 128 - bits;
    if bits <= 64 {
      HighMask(hi, lo, 64 - bits);
    } else if bits < 128 {
      LowMask(hi, lo, k);
    }
  }

  /** Two aligned blocks are disjoint, or the smaller lies within the larger. */
  lemma AlignedBlocksNest(a: nat, i: nat, b: nat, j: nat)
    requires Aligned(a, i) && Aligned(b, j) && i <= j
    ensures a + Pow2(i) <= b || b + Pow2(j) <= a || (b <= a && a + Pow2(i) <= b + Pow2(j))
  {
    hide Aligned, Pow2;
    AlignedDown(b, i, j);
    if a < b {
      AlignedGap(a, b, i);
    } else if a < b + Pow2(j) {
      PowerAligned(j);
      AlignedSum(b, Pow2(j), j);
      AlignedDown(b + Pow2(j), i, j);
      AlignedGap(a, b + Pow2(j), i);
    }
  }

  /** IPv6 ranges whose starts are aligned to their prefix length nest or are disjoint. */
  lemma AlignedRangesNest(ah: u64, al: u64, p: nat, bh: u64, bl: u64, q: nat)
    requires q <= p <= 128
    requires Aligned(Num128(ah, al), 128 - p) && Aligned(Num128(bh, bl), 128 - q)
    ensures var a, b := Num128(ah, al), Num128(bh, bl);
            var aEnd := Num128(PrefixEnd128(ah, al, p).0, PrefixEnd128(ah, al, p).1);
            var bEnd := Num128(PrefixEnd128(bh, bl, q).0, PrefixEnd128(bh, bl, q).1);
            aEnd < b || bEnd < a || b <= a <= aEnd <= bEnd
  {
    hide Num128, PrefixEnd128, ClearLow, Aligned, Pow2;
    PrefixEndIsBlockEnd(ah, al, p);
    PrefixEndIsBlockEnd(bh, bl, q);
    ClearLowAligned(Num128(ah, al), 128 - p);
    ClearLowAligned(Num128(bh, bl), 128 - q);
    AlignedBlocksNest(Num128(ah, al), 128 - p, Num128(bh, bl), 128 - q);
  }

  // ----- rows -----

  /** The start of an IPv4 or ASN record as Build reads it. */
  function Start32(lib: Library, r: Record): Option<u32> {
    match r.kind
    case TypeIPv4 =>
      var a := lib.parseAddr(r.start);
      if a.Some? && a.value.V4? then Some(V4ToU32(a.value)) else None
    case TypeIPv6 => None
    case TypeASN => if AllDigits(r.start) then Some(Wrap32(Value(r.start))) else None
  }

  function Start128(lib: Library, r: Record): Option<(u64, u64)> {
    var a := lib.parseAddr(r.start);
    if a.Some? && a.value.V6? then Some((a.value.hi, a.value.lo)) else None
  }

  /** The error with which the callback stops the run, if any. */
  function Reject(lib: Library, r: Record): Option<string> {
    if |r.cc| != 2 then None
    else
      match r.kind
      case TypeIPv4 => if Start32(lib, r).None? then Some("rir: ipv4 start") else None
      case TypeIPv6 =>
        if Start128(lib, r).None? then Some("rir: ipv6 start")
        else if r.value == 0 || r.value > 128 then Some("rir: ipv6 prefix invalid")
        else None
      case TypeASN => if Start32(lib, r).None? then Some("rir: asn start") else None
  }

  /** Of the records with a two-letter country, those are rejected whose start does not fit their type and
      IPv6 records with a prefix length outside 1 to 128; a start without digits is an ASN. */
  lemma RejectIs(lib: Library, r: Record)
    ensures Reject(lib, r).Some? <==>
              && |r.cc| == 2
              && var a := lib.parseAddr(r.start);
                 || (r.kind.TypeIPv4? && !(a.Some? && a.value.V4?))
                 || (r.kind.TypeIPv6? && (!(a.Some? && a.value.V6?) || r.value == 0 || r.value > 128))
                 || (r.kind.TypeASN? && exists i :: 0 <= i < |r.start| && !('0' <= r.start[i] <= '9'))
  {
    hide V4ToU32, Value, Wrap32;
  }

  /** The row an IPv4 or ASN record adds to its table. */
  function Row32(lib: Library, kind: RecordType, r: Record): Option<Range32> {
    if |r.cc| == 2 && r.kind == kind && r.value != 0 && Start32(lib, r).Some? then
      var u := Start32(lib, r).value;
      Some(Range32(u, End32(u, r.value), TagOf(r)))
    else None
  }

  function Row128(lib: Library, r: Record): Option<Range128> {
    if |r.cc| == 2 && r.kind.TypeIPv6? && Start128(lib, r).Some? then
      var (hi, lo) := Start128(lib, r).value;
      var (eh, el) := PrefixEnd128(hi, lo, r.value);
      Some(Range128(hi, lo, eh, el, TagOf(r)))
    else None
  }

  function Listed<T>(t: Option<T>): seq<T> { if t.Some? then [t.value] else [] }

  /** The values f yields, in order. */
  function Collect<S, T>(f: S -> Option<T>, s: seq<S>): seq<T> {
    if s == [] then [] else Collect(f, s[..|s| - 1]) + Listed(f(s[|s| - 1]))
  }

  lemma {:induction false} CollectMembers<S, T>(f: S -> Option<T>, s: seq<S>, t: T)
    ensures t in Collect(f, s) <==> exists i :: 0 <= i < |s| && f(s[i]) == Some(t)
    decreases |s|
  {
    if s != [] {
      CollectMembers(f, s[..|s| - 1], t);
    }
  }

  lemma CollectNext<S, T>(f: S -> Option<T>, s: seq<S>, i: nat)
    requires i < |s|
    ensures Collect(f, s[..i + 1]) == Collect(f, s[..i]) + Listed(f(s[i]))
  {
    assert s[..i + 1][..i] == s[..i];
  }

  // ----- Build -----

  /** db holds the rows of the records, each table sorted by start. */
  ghost predicate IsBuilt(lib: Library, records: seq<Record>, db: DB) {
    && IsSorting(db.v4, Collect(r => Row32(lib, TypeIPv4, r), records), (r: Range32) => r.start)
    && IsSorting(db.asn, Collect(r => Row32(lib, TypeASN, r), records), (r: Range32) => r.start)
    && IsSorting(db.v6, Collect(r => Row128(lib, r), records), (r: Range128) => Num128(r.startHi, r.startLo))
  }

  /** What the callback does with a record that it accepts. */
  method AppendRow(lib: Library, rec: Record, v4: seq<Range32>, v6: seq<Range128>, asn: seq<Range32>)
    returns (v4': seq<Range32>, v6': seq<Range128>, asn': seq<Range32>)
    ensures v4' == v4 + Listed(Row32(lib, TypeIPv4, rec))
    ensures v6' == v6 + Listed(Row128(lib, rec))
    ensures asn' == asn + Listed(Row32(lib, TypeASN, rec))
  {
    hide PrefixEnd128, V4ToU32, Value, TagOf, Wrap32, AllDigits;
    v4', v6', asn' := v4, v6, asn;
    if |rec.cc| != 2 {
      return;
    }
    var tag := TagOf(rec);
    match rec.kind
    case TypeIPv4 =>
      var start := lib.parseAddr(rec.start);
      if start.Some? && start.value.V4? && rec.value != 0 {
        var u := V4ToU32(start.value);
        var end := Wrap32(Wrap32(u + Wrap32(rec.value)) - 1);
        v4' := v4 + [Range32(u, end, tag)];
      }
    case TypeIPv6 =>
      var start := lib.parseAddr(rec.start);
      if start.Some? && start.value.V6? {
        var (eh, el) := PrefixEnd128(start.value.hi, start.value.lo, rec.value);
        v6' := v6 + [Range128(start.value.hi, start.value.lo, eh, el, tag)];
      }
    case TypeASN =>
      var startASN, ok := ParseUint32(rec.start);
      if ok && rec.value != 0 {
        var end := Wrap32(Wrap32(startASN + Wrap32(rec.value)) - 1);
        asn' := asn + [Range32(startASN, end, tag)];
      }
  }

  method Build(lib: Library, lines: seq<string>, scanErr: Option<string>) returns (res: Result<DB, string>)
    ensures var end := Parser.ConsumeAll(lib, false, r => Reject(lib, r), Parser.FRESH, lines);
            && (res.Success? <==> end.err.None? && scanErr.None?)
            && (res.Success? ==> IsBuilt(lib, end.delivered, res.value))
  {
    var p := new Parser.Parser();
    var records, n, err := p.Parse(lib, lines, scanErr, r => Reject(lib, r));
    if err.Some? {
      return Failure(err.value);
    }
    hide Parser.ConsumeAll, Row32, Row128, Listed;
    var v4: seq<Range32>, v6: seq<Range128>, asn: seq<Range32> := [], [], [];
    for i := 0 to |records|
      invariant v4 == Collect(r => Row32(lib, TypeIPv4, r), records[..i])
      invariant v6 == Collect(r => Row128(lib, r), records[..i])
      invariant asn == Collect(r => Row32(lib, TypeASN, r), records[..i])
    {
      CollectNext(r => Row32(lib, TypeIPv4, r), records, i);
      CollectNext(r => Row128(lib, r), records, i);
      CollectNext(r => Row32(lib, TypeASN, r), records, i);
      v4, v6, asn := AppendRow(lib, records[i], v4, v6, asn);
    }
    assert records[..|records|] == records;
    v4 := SortSlice(v4, (r: Range32) => r.start);
    v6 := SortSlice(v6, (r: Range128) => Num128(r.startHi, r.startLo));
    asn := SortSlice(asn, (r: Range32) => r.start);
    res := Success(DB(v4, v6, asn));
  }
}
