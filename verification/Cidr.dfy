/** Decomposition of an IPv4 range into aligned CIDR blocks (internal/rir/parser.go). */
module Cidr {
  import opened Wrappers
  import opened Words
  import opened Addresses

  /** The 2^exp addresses from start on; start is not wrapped at 2^32. */
  datatype Block = Block(start: nat, exp: nat) {
    function End(): nat { start + Pow2(exp) }
    predicate OnBoundary() { Aligned(start, exp) }
    predicate Covers(x: nat) { start <= x < End() }
  }

  // ----- the greedy choice -----

  /** A block of 2^k starting at s is aligned and stays within count addresses. */
  predicate Fits(s: nat, count: nat, k: nat) { Pow2(k) <= count && Aligned(s, k) }

  /** The exponent reached by doubling from 2^k while the doubled block still fits. */
  function Widest(s: nat, count: nat, k: nat): (m: nat)
    requires Fits(s, count, k)
    ensures Fits(s, count, m) && !Fits(s, count, m + 1)
    decreases count - Pow2(k)
  {
    if Fits(s, count, k + 1) then Widest(s, count, k + 1) else k
  }

  function First(s: nat, count: nat): nat
    requires count > 0
  {
    Widest(s, count, 0)
  }

  /** Stopping the doubling at the first misfit loses nothing: no wider block fits. */
  lemma FirstIsWidest(s: nat, count: nat, j: nat)
    requires count > 0 && Fits(s, count, j)
    ensures j <= First(s, count)
  {
    var m := First(s, count);
    if j > m {
      AlignedDown(s, m + 1, j);
      Pow2Order(m + 1, j);
      assert false;
    }
  }

  function Greedy(s: nat, count: nat): seq<Block>
    decreases count
  {
    if count == 0 then []
    else
      var b := Block(s, First(s, count));
      [b] + Greedy(b.End(), count - Pow2(b.exp))
  }

  lemma GreedyStep(s: nat, count: nat, k: nat)
    requires count > 0 && k == First(s, count)
    ensures Pow2(k) <= count
    ensures Greedy(s, count) == [Block(s, k)] + Greedy(s + Pow2(k), count - Pow2(k))
    ensures |Greedy(s, count)| == 1 + |Greedy(s + Pow2(k), count - Pow2(k))|
  {
  }

  lemma GreedyNone(s: nat)
    ensures Greedy(s, 0) == []
  {
  }

  // ----- it tiles the range -----

  /** Aligned blocks laid end to end from s to e. */
  predicate Tiles(bs: seq<Block>, s: nat, e: nat)
    decreases |bs|
  {
    if bs == [] then s == e
    else bs[0].start == s && bs[0].OnBoundary() && bs[0].End() <= e && Tiles(bs[1..], bs[0].End(), e)
  }

  lemma {:induction false} GreedyTiles(s: nat, count: nat)
    ensures Tiles(Greedy(s, count), s, s + count)
    decreases count
  {
    if count > 0 {
      var b := Block(s, First(s, count));
      GreedyTiles(b.End(), count - Pow2(b.exp));
      assert Greedy(s, count)[1..] == Greedy(b.End(), count - Pow2(b.exp));
    }
  }

  /** A tiling covers exactly its range, every address once. */
  lemma {:induction false} TilingCoversOnce(bs: seq<Block>, s: nat, e: nat, x: nat)
    requires Tiles(bs, s, e)
    ensures s <= e
    ensures (s <= x < e) <==> exists i :: 0 <= i < |bs| && bs[i].Covers(x)
    ensures forall i, j :: 0 <= i < j < |bs| ==> bs[i].End() <= bs[j].start
    decreases |bs|
  {
    if bs != [] {
      var rest := bs[1..];
      var m := bs[0].End();
      TilingCoversOnce(rest, m, e, x);
      assert forall i :: 1 <= i < |bs| ==> bs[i] == rest[i - 1];
      forall i | 0 <= i < |rest|
        ensures m <= rest[i].start
      {
        if i == 0 {
        } else {
          assert rest[0].End() <= rest[i].start;
        }
      }
      if s <= x < e {
        if x < m {
          assert bs[0].Covers(x);
        } else {
          var i :| 0 <= i < |rest| && rest[i].Covers(x);
          assert bs[i + 1].Covers(x);
        }
      }
      if i :| 0 <= i < |bs| && bs[i].Covers(x) {
        if i > 0 {
          assert rest[i - 1].Covers(x);
        }
      }
    }
  }

  // ----- no cover is smaller -----

  /** An aligned block inside the range that starts within the first greedy block ends within it. */
  lemma StaysInFirst(b: Block, s: nat, count: nat)
    requires count > 0 && b.OnBoundary() && s <= b.start && b.End() <= s + count
    requires b.start < s + Pow2(First(s, count))
    ensures b.End() <= s + Pow2(First(s, count))
  {
    var k := First(s, count);
    if b.start == s {
      FirstIsWidest(s, count, b.exp);
      Pow2Order(b.exp, k);
    } else if b.exp >= k {
      AlignedDown(b.start, k, b.exp);
      AlignedGap(s, b.start, k);
    } else {
      PowerAligned(k);
      AlignedSum(s, Pow2(k), k);
      AlignedDown(s + Pow2(k), b.exp, k);
      AlignedGap(b.start, s + Pow2(k), b.exp);
    }
  }

  ghost predicate Covered(cover: set<Block>, x: nat) { exists b :: b in cover && b.Covers(x) }

  /** Aligned blocks, in any number and overlapping at will, whose union is the range. */
  ghost predicate IsCover(cover: set<Block>, s: nat, count: nat) {
    && (forall b <- cover :: b.OnBoundary() && s <= b.start && b.End() <= s + count)
    && (forall x: nat :: s <= x < s + count ==> Covered(cover, x))
  }

  lemma Included<T>(part: set<T>, all: set<T>)
    requires part <= all
    ensures |part| <= |all|
  {
    assert all == part + (all - part);
  }

  lemma ProperPart<T>(all: set<T>, part: set<T>, x: T)
    requires part <= all && x in all && x !in part
    ensures |part| < |all|
  {
    assert part <= all - {x};
    Included(part, all - {x});
  }

  /** Dropping the blocks that start in the first greedy block leaves a smaller cover of the rest of the range. */
  lemma CoverRest(cover: set<Block>, s: nat, count: nat) returns (far: set<Block>)
    requires count > 0 && IsCover(cover, s, count)
    ensures |far| < |cover|
    ensures IsCover(far, s + Pow2(First(s, count)), count - Pow2(First(s, count)))
  {
    hide Pow2, Aligned, First;
    var m := s + Pow2(First(s, count));
    far := set b | b in cover && b.start >= m;
    assert Covered(cover, s);
    var b0 :| b0 in cover && b0.Covers(s);
    assert b0 !in far;
    ProperPart(cover, far, b0);
    forall x: nat | m <= x < s + count
      ensures Covered(far, x)
    {
      assert Covered(cover, x);
      var b :| b in cover && b.Covers(x);
      if b.start < m {
        StaysInFirst(b, s, count);
      }
      assert b in far;
    }
  }

  /** The decomposition is minimum: every cover by aligned blocks has at least as many of them. */
  lemma {:induction false} GreedyIsMinimum(cover: set<Block>, s: nat, count: nat)
    requires IsCover(cover, s, count)
    ensures |Greedy(s, count)| <= |cover|
    decreases count
  {
    hide Pow2, First, IsCover;
    if count > 0 {
      var k := First(s, count);
      var far := CoverRest(cover, s, count);
      GreedyStep(s, count, k);
      GreedyIsMinimum(far, s + Pow2(k), count - Pow2(k));
    }
  }

  // ----- sizes grow, then shrink -----

  predicate Growing(bs: seq<Block>) { forall i, j :: 0 <= i < j < |bs| ==> bs[i].exp < bs[j].exp }
  predicate Shrinking(bs: seq<Block>) { forall i, j :: 0 <= i < j < |bs| ==> bs[i].exp > bs[j].exp }

  /** After a block cut short by the count, less than the block remains, again on its boundary. */
  lemma AfterFirst(s: nat, count: nat, k: nat)
    requires count > 0 && k == First(s, count) && Aligned(s, k + 1)
    ensures Aligned(s + Pow2(k), k) && count - Pow2(k) < Pow2(k)
  {
    AlignedDown(s, k, k + 1);
    PowerAligned(k);
    AlignedSum(s, Pow2(k), k);
  }

  lemma FirstFits(s: nat, count: nat)
    requires count > 0
    ensures Fits(s, count, First(s, count))
  {
  }

  /** When less than an aligned 2^m remains, the blocks are its binary digits, largest first. */
  lemma {:induction false} TailShrinks(s: nat, count: nat, m: nat)
    requires count < Pow2(m) && Aligned(s, m)
    ensures Shrinking(Greedy(s, count))
    ensures forall b <- Greedy(s, count) :: b.exp < m
    decreases count
  {
    hide First, Aligned;
    if count > 0 {
      var k := First(s, count);
      FirstFits(s, count);
      Pow2Order(m, k);
      AlignedDown(s, k + 1, m);
      AfterFirst(s, count, k);
      TailShrinks(s + Pow2(k), count - Pow2(k), k);
      GreedyStep(s, count, k);
    }
  }

  /** bs grows strictly up to position top, never below 2^low, and shrinks strictly from there on. */
  predicate Peaks(bs: seq<Block>, top: nat, low: nat) {
    && top <= |bs| && Growing(bs[..top]) && Shrinking(bs[top..])
    && forall i :: 0 <= i < top ==> bs[i].exp >= low
  }

  lemma PeakAhead(b: Block, rest: seq<Block>, top: nat, low: nat)
    requires low <= b.exp && Peaks(rest, top, b.exp + 1)
    ensures Peaks([b] + rest, top + 1, low)
  {
  }

  lemma FirstOnBoundary(s: nat, count: nat)
    requires count > 0
    ensures Pow2(First(s, count)) <= count && Aligned(s, First(s, count))
  {
  }

  /** The blocks strictly grow up to some position and strictly shrink from there on. */
  lemma {:induction false} GreedyShape(s: nat, count: nat, low: nat) returns (top: nat)
    requires Aligned(s, low)
    ensures Peaks(Greedy(s, count), top, low)
    decreases count
  {
    hide Pow2, Aligned, First, Greedy;
    var g := Greedy(s, count);
    if count < Pow2(low) {
      TailShrinks(s, count, low);
      top := 0;
      assert g[..0] == [] && g[0..] == g;
    } else {
      FirstIsWidest(s, count, low);
      FirstOnBoundary(s, count);
      var k := First(s, count);
      var rest := Greedy(s + Pow2(k), count - Pow2(k));
      GreedyStep(s, count, k);
      if Aligned(s, k + 1) {
        AfterFirst(s, count, k);
        TailShrinks(s + Pow2(k), count - Pow2(k), k);
        assert rest[..0] == [] && rest[0..] == rest;
        PeakAhead(Block(s, k), rest, 0, low);
        top := 1;
      } else {
        AlignedUp(s, k);
        var t := GreedyShape(s + Pow2(k), count - Pow2(k), k + 1);
        PeakAhead(Block(s, k), rest, t, low);
        top := t + 1;
      }
    }
  }

  function TotalSize(bs: seq<Block>): nat {
    if bs == [] then 0 else Pow2(bs[0].exp) + TotalSize(bs[1..])
  }

  lemma {:induction false} TotalSizeSplit(a: seq<Block>, b: seq<Block>)
    ensures TotalSize(a + b) == TotalSize(a) + TotalSize(b)
    decreases |a|
  {
    if a == [] {
      assert a + b == b;
    } else {
      TotalSizeSplit(a[1..], b);
      assert (a + b)[1..] == a[1..] + b;
    }
  }

  lemma {:induction false} TilingSize(bs: seq<Block>, s: nat, e: nat)
    requires Tiles(bs, s, e)
    ensures TotalSize(bs) == e - s
    decreases |bs|
  {
    if bs != [] {
      TilingSize(bs[1..], bs[0].End(), e);
    }
  }

  /** n blocks of strictly decreasing size hold at least 2^n - 1 addresses. */
  lemma {:induction false} ShrinkingSize(bs: seq<Block>)
    requires Shrinking(bs)
    ensures TotalSize(bs) >= Pow2(|bs|) - 1
    ensures bs != [] ==> bs[0].exp >= |bs| - 1
    decreases |bs|
  {
    if bs != [] {
      var rest := bs[1..];
      ShrinkingSize(rest);
      if rest != [] { assert bs[0].exp > bs[1].exp; }
      Pow2Order(|bs| - 1, bs[0].exp);
    }
  }

  lemma {:induction false} GrowingSize(bs: seq<Block>)
    requires Growing(bs)
    ensures TotalSize(bs) >= Pow2(|bs|) - 1
    ensures bs != [] ==> bs[|bs| - 1].exp >= |bs| - 1
    decreases |bs|
  {
    if bs != [] {
      var n := |bs| - 1;
      var rest := bs[..n];
      GrowingSize(rest);
      TotalSizeSplit(rest, [bs[n]]);
      assert bs == rest + [bs[n]];
      if n > 0 { assert bs[n - 1].exp < bs[n].exp; }
      Pow2Order(n, bs[n].exp);
      assert TotalSize([bs[n]]) == Pow2(bs[n].exp);
    }
  }

  lemma AnyAligned(s: nat)
    ensures Aligned(s, 0)
  {
  }

  lemma OneSided(m: nat, n: nat, k: nat)
    requires m >= k && Pow2(m) + Pow2(n) <= Pow2(k) + 1
    ensures m == k && n == 0
  {
    assert Pow2(0) == 1;
    hide Pow2;
    Pow2Order(k, m);
    Pow2Order(0, n);
  }

  lemma SumBound(m: nat, n: nat, k: nat)
    requires k >= 2 && Pow2(m) + Pow2(n) <= Pow2(k) + 1
    ensures m + n <= 2 * k - 2
  {
    if m >= k {
      OneSided(m, n, k);
    } else if n >= k {
      OneSided(n, m, k);
    }
  }

  /** A uint32 count never needs more than 62 prefixes. */
  lemma AtMost62(s: nat, count: u32)
    ensures |Greedy(s, count)| <= 62
  {
    hide Pow2, Greedy, Growing, Shrinking, Tiles, Aligned;
    var g := Greedy(s, count);
    AnyAligned(s);
    var top := GreedyShape(s, count, 0);
    var up, down := g[..top], g[top..];
    assert g == up + down;
    GreedyTiles(s, count);
    TilingSize(g, s, s + count);
    TotalSizeSplit(up, down);
    GrowingSize(up);
    ShrinkingSize(down);
    Pow2Is32();
    SumBound(|up|, |down|, 32);
  }

  // ----- the bound is reached -----

  lemma FirstOfPower(i: nat, count: nat)
    requires count > 0
    ensures First(Pow2(i), count) <= i
  {
    PowerAligned(i);
    FirstOnBoundary(Pow2(i), count);
    hide *;
    var k := First(Pow2(i), count);
    if k > i {
      AlignedDown(Pow2(i), i + 1, k);
    }
  }

  lemma OnesFirst(s: nat, n: nat)
    requires n > 0 && Aligned(s, n)
    ensures First(s, Pow2(n) - 1) == n - 1
  {
    hide First, Aligned, Pow2;
    var count := Pow2(n) - 1;
    Pow2Order(n - 1, n);
    AlignedDown(s, n - 1, n);
    FirstIsWidest(s, count, n - 1);
    FirstFits(s, count);
    Pow2Order(n, First(s, count));
  }

  /** A range one short of an aligned 2^n takes n blocks. */
  lemma {:induction false} OnesLength(s: nat, n: nat)
    requires Aligned(s, n)
    ensures |Greedy(s, Pow2(n) - 1)| == n
    decreases n
  {
    hide Greedy, First, Aligned;
    if n == 0 {
      GreedyNone(s);
    } else {
      var p := Pow2(n - 1);
      assert Pow2(n) == 2 * p;
      hide Pow2;
      OnesFirst(s, n);
      AfterFirst(s, Pow2(n) - 1, n - 1);
      GreedyStep(s, Pow2(n) - 1, n - 1);
      OnesLength(s + p, n - 1);
    }
  }

  /** From 2^i up to one short of 2^(n+1) the sizes climb to 2^(n-1) and descend again. */
  lemma {:induction false} WorstCase(i: nat, n: nat, count: nat)
    requires i <= n && Pow2(i) + count + 1 == Pow2(n + 1)
    ensures |Greedy(Pow2(i), count)| == 2 * n - i
    decreases n - i
  {
    hide Greedy, First, Aligned;
    PowerAligned(i);
    if i == n {
      OnesLength(Pow2(i), n);
    } else {
      Pow2Order(i + 1, n);
      FirstIsWidest(Pow2(i), count, i);
      FirstOfPower(i, count);
      GreedyStep(Pow2(i), count, i);
      WorstCase(i + 1, n, count - Pow2(i));
    }
  }

  /** The 2^32 - 2 addresses from 0.0.0.1 on take exactly 62 prefixes. */
  lemma SixtyTwoIsReached()
    ensures |Greedy(1, POW32 - 2)| == 62
  {
    Pow2Is32();
    WorstCase(0, 31, POW32 - 2);
  }

  // ----- the code -----

  lemma {:induction false} ShrOne(x: nat, n: nat)
    requires Shr(x, n) == 1
    ensures Pow2(n) <= x < Pow2(n + 1)
    decreases n
  {
    if n > 0 {
      ShrOne(x / 2, n - 1);
    }
  }

  /** Index of the highest set bit; zero for zero. */
  method Log2(x: u32) returns (n: u32)
    ensures x == 0 ==> n == 0
    ensures x > 0 ==> Pow2(n) <= x < Pow2(n + 1)
  {
    n := 0;
    var y := x;
    while y > 1
      invariant n + y <= POW32 - 1
      invariant x == 0 ==> y == 0 && n == 0
      invariant x > 0 ==> y > 0 && y == Shr(x, n)
      decreases y
    {
      ShrTwice(x, n, 1);
      Wrap32Small(n + 1);
      y := y / 2;
      n := Wrap32(n + 1);
    }
    if x > 0 {
      ShrOne(x, n);
    }
  }

  lemma Log2OfPower(x: nat, n: nat, k: nat)
    requires x == Pow2(k) && Pow2(n) <= x < Pow2(n + 1)
    ensures n == k
  {
    Pow2Order(n + 1, k);
    Pow2Order(k, n);
  }

  function PrefixOf(b: Block): Prefix
    requires b.exp <= 32
  {
    Prefix(U32ToV4(Wrap32(b.start)), 32 - b.exp)
  }

  /** ps spells out bs, block by block. */
  predicate Spells(ps: seq<Prefix>, bs: seq<Block>) {
    && |ps| == |bs|
    && forall i :: 0 <= i < |bs| ==> bs[i].exp <= 32 && ps[i] == PrefixOf(bs[i])
  }

  lemma SpellsAppend(out: seq<Prefix>, done: seq<Block>, pfx: Prefix, b: Block, rest: seq<Block>)
    requires Spells(out, done) && b.exp <= 32 && pfx == PrefixOf(b)
    ensures Spells(out + [pfx], done + [b])
    ensures done + ([b] + rest) == (done + [b]) + rest
  {
  }

  lemma {:induction false} ExponentsFit(s: nat, count: u32)
    ensures forall b <- Greedy(s, count) :: b.exp < 32
    decreases count
  {
    if count > 0 {
      Pow2Is32();
      var b := Block(s, First(s, count));
      Pow2Order(32, b.exp);
      ExponentsFit(b.End(), count - Pow2(b.exp));
    }
  }

  /** Clearing the host bits of an aligned start changes nothing. */
  lemma MaskingIsIdentity(b: Block)
    requires b.exp <= 32 && b.OnBoundary()
    ensures V4PrefixOf(U32ToV4(Wrap32(b.start)), 32 - b.exp) == PrefixOf(b)
  {
    hide Pow2, Aligned, ClearLow, Wrap32, U32ToV4, V4ToU32;
    WrapKeepsAlignment(b.start, b.exp);
    V4FromWord(Wrap32(b.start));
    ClearLowAligned(Wrap32(b.start), b.exp);
  }

  method BlockPrefix(cursor: u32, block: u32, ghost b: Block) returns (pfx: Prefix)
    requires cursor == Wrap32(b.start) && block == Pow2(b.exp) && b.exp < 32 && b.OnBoundary()
    ensures pfx == PrefixOf(b)
  {
    hide Pow2, Aligned, Wrap32;
    var log := Log2(block);
    Log2OfPower(block, log, b.exp);
    Wrap32Small(32 - log);
    MaskingIsIdentity(b);
    pfx := V4PrefixOf(U32ToV4(cursor), Wrap32(32 - log));
  }

  lemma BoundedExponent(block: u32, k: nat)
    requires block == Pow2(k)
    ensures k < 32
  {
    Pow2Is32();
    Pow2Order(32, k);
  }

  /** The inner loop's test on the wrapped cursor is exactly "the doubled block fits". */
  lemma DoublingTest(pos: nat, remain: u32, k: nat)
    requires k < 32
    ensures Pow2(k) <= remain / 2 ==> 2 * Pow2(k) < POW32
    ensures Fits(pos, remain, k + 1)
       <==> Pow2(k) <= remain / 2 && Wrap32(pos) % Wrap32(2 * Pow2(k)) == 0 && Wrap32(2 * Pow2(k)) != 0
  {
    var p := Pow2(k);
    if p <= remain / 2 {
      Wrap32Small(2 * p);
      WrapKeepsAlignment(pos, k + 1);
      AlignedIsMultiple(Wrap32(pos), k + 1);
    }
  }

  /** The inner loop: double the block while it divides the cursor and fits in what remains. */
  method WidestBlock(cursor: u32, remain: u32, ghost pos: nat) returns (block: u32, ghost k: nat)
    requires remain > 0 && cursor == Wrap32(pos)
    ensures k == First(pos, remain) && k < 32 && Aligned(pos, k) && block == Pow2(k) && block <= remain
  {
    block := 1;
    k := 0;
    while block <= remain / 2 && cursor % Wrap32(2 * block) == 0 && Wrap32(2 * block) != 0
      invariant block == Pow2(k) && k < 32 && Fits(pos, remain, k)
      invariant Widest(pos, remain, k) == First(pos, remain)
      decreases remain - block
    {
      DoublingTest(pos, remain, k);
      block := Wrap32(2 * block);
      k := k + 1;
      BoundedExponent(block, k);
    }
    DoublingTest(pos, remain, k);
  }

  // ----- what the prefixes denote -----

  /** Some returned prefix contains the address numbered x. */
  ghost predicate Denotes(ps: seq<Prefix>, x: u32) {
    exists i :: 0 <= i < |ps| && ps[i].Contains(U32ToV4(x))
  }

  /** Containment of addresses in terms of their numbers. */
  lemma WordPrefix(s: u32, k: nat, x: u32)
    requires k <= 32
    ensures Prefix(U32ToV4(s), 32 - k).Contains(U32ToV4(x)) <==> Shr(x, k) == Shr(s, k)
  {
    var a, b := U32ToV4(s), U32ToV4(x);
    assert a.BitLen() == 32 && b.BitLen() == 32 && !b.HasZone() && !a.Invalid?;
    hide Shr, U32ToV4;
    V4FromWord(s);
    V4FromWord(x);
    assert a.Num() == s && b.Num() == x;
    hide Addr.Num, Addr.BitLen, V4ToU32;
  }

  lemma PrefixDenotesBlock(b: Block, x: u32)
    requires b.exp <= 32 && b.OnBoundary()
    ensures PrefixOf(b).Contains(U32ToV4(x)) <==> Wrap32(b.start) <= x < Wrap32(b.start) + Pow2(b.exp)
  {
    hide Pow2, Aligned, ClearLow, Shr, Wrap32, U32ToV4, Prefix.Contains;
    WordPrefix(Wrap32(b.start), b.exp, x);
    WrapKeepsAlignment(b.start, b.exp);
    ClearLowAligned(Wrap32(b.start), b.exp);
    SameBlock(Wrap32(b.start), x, b.exp);
  }

  /** No block reaches across 2^32. */
  lemma NoStraddle(b: Block)
    requires b.exp <= 32 && b.OnBoundary() && b.start < POW32
    ensures b.End() <= POW32
  {
    Pow2Is32();
    PowerAligned(32);
    AlignedDown(Pow2(32), b.exp, 32);
    AlignedGap(b.start, Pow2(32), b.exp);
  }

  lemma {:induction false} TilesOnBoundary(bs: seq<Block>, s: nat, e: nat)
    requires Tiles(bs, s, e)
    ensures forall i :: 0 <= i < |bs| ==> bs[i].OnBoundary() && s <= bs[i].start && bs[i].End() <= e
    decreases |bs|
  {
    if bs != [] {
      TilesOnBoundary(bs[1..], bs[0].End(), e);
      assert forall i :: 1 <= i < |bs| ==> bs[i] == bs[1..][i - 1];
      TilingCoversOnce(bs, s, e, s);
    }
  }

  lemma WrapTwice(x: nat)
    ensures x < POW32 ==> Wrap32(x) == x
    ensures POW32 <= x < 2 * POW32 ==> Wrap32(x) == x - POW32
  {
  }

  /** A block below 2 * 2^32 denotes what it covers, counted modulo 2^32. */
  lemma BlockDenotes(b: Block, x: u32)
    requires b.exp <= 32 && b.OnBoundary() && b.End() <= 2 * POW32
    ensures PrefixOf(b).Contains(U32ToV4(x)) <==> b.Covers(x) || b.Covers(x + POW32)
  {
    hide Pow2, Aligned, Prefix.Contains, PrefixOf;
    PrefixDenotesBlock(b, x);
    WrapTwice(b.start);
    if b.start < POW32 {
      NoStraddle(b);
    }
  }

  /** The prefixes contain exactly the addresses s, s+1, ..., s+count-1 counted modulo 2^32. */
  lemma DenotesWrappedRange(ps: seq<Prefix>, s: u32, count: u32, x: u32)
    requires Spells(ps, Greedy(s, count))
    ensures Denotes(ps, x) <==> s <= x < s + count || x + POW32 < s + count
  {
    hide Greedy, Pow2, Aligned, Tiles, Prefix.Contains, PrefixOf;
    var g := Greedy(s, count);
    GreedyTiles(s, count);
    TilesOnBoundary(g, s, s + count);
    TilingCoversOnce(g, s, s + count, x);
    TilingCoversOnce(g, s, s + count, x + POW32);
    forall i | 0 <= i < |g|
      ensures ps[i].Contains(U32ToV4(x)) <==> g[i].Covers(x) || g[i].Covers(x + POW32)
    {
      BlockDenotes(g[i], x);
    }
  }

  /** The result denotes exactly [s, s + count) if and only if the range ends within the address space. */
  lemma ExactUnlessWrapped(ps: seq<Prefix>, s: u32, count: u32)
    requires Spells(ps, Greedy(s, count))
    ensures (forall x: u32 :: Denotes(ps, x) <==> s <= x < s + count) <==> s + count <= POW32
  {
    forall x: u32
      ensures Denotes(ps, x) <==> s <= x < s + count || x + POW32 < s + count
    {
      DenotesWrappedRange(ps, s, count, x);
    }
    if s + count > POW32 {
      assert Denotes(ps, 0);
    }
  }

  /** An aligned power of two is one block. */
  lemma WholeBlock(s: nat, k: nat)
    requires Aligned(s, k)
    ensures Greedy(s, Pow2(k)) == [Block(s, k)]
  {
    hide Greedy, First, Aligned, Pow2;
    var m := First(s, Pow2(k));
    FirstIsWidest(s, Pow2(k), k);
    FirstFits(s, Pow2(k));
    Pow2Order(k, m);
    GreedyStep(s, Pow2(k), k);
    GreedyNone(s + Pow2(k));
  }

  lemma MultipleOfOctets(x: Addr)
    requires x.V4? && x.d == 0
    ensures Aligned(V4ToU32(x), 8) && (x.c == 0 ==> Aligned(V4ToU32(x), 16))
  {
    hide Aligned, Pow2;
    OctetPowers();
    MultipleAligned(8, (x.a * 0x100 + x.b) * 0x100 + x.c);
    MultipleAligned(16, x.a * 0x100 + x.b);
  }

  /** The 256 addresses from a.b.c.0 on are a.b.c.0/24, and the 65536 from a.b.0.0 on are a.b.0.0/16. */
  lemma OctetRangesAreOnePrefix(start: Addr, ps: seq<Prefix>)
    requires start.V4? && start.d == 0
    ensures Spells(ps, Greedy(V4ToU32(start), 256)) ==> ps == [Prefix(start, 24)]
    ensures start.c == 0 && Spells(ps, Greedy(V4ToU32(start), 65536)) ==> ps == [Prefix(start, 16)]
  {
    var s := V4ToU32(start);
    V4ToWord(start);
    OctetPowers();
    Wrap32Small(s);
    hide Greedy, Aligned, Pow2, U32ToV4, V4ToU32, Wrap32;
    MultipleOfOctets(start);
    WholeBlock(s, 8);
    if start.c == 0 {
      WholeBlock(s, 16);
    }
  }

  method CIDRsFromV4Count(start: Addr, count: u64) returns (r: Result<seq<Prefix>, string>)
    ensures r.Success? <==> start.V4? && count < POW32
    ensures r.Success? ==> Spells(r.value, Greedy(V4ToU32(start), count)) && |r.value| <= 62
    ensures r.Success? ==> var s := V4ToU32(start);
              (forall x: u32 :: Denotes(r.value, x) <==> s <= x < s + count) <==> s + count <= POW32
  {
    hide Greedy, First, Wrap32, U32ToV4, V4ToU32, PrefixOf, Pow2, Aligned, Denotes;
    if !start.V4? {
      return Failure("rir: CIDRsFromV4Count: not IPv4");
    }
    if count == 0 {
      GreedyNone(V4ToU32(start));
      ExactUnlessWrapped([], V4ToU32(start), 0);
      return Success([]);
    }
    if count > POW32 - 1 {
      return Failure("rir: v4 count overflow");
    }
    var s := V4ToU32(start);
    var out: seq<Prefix> := [];
    var remain: u32 := Wrap32(count);
    var cursor: u32 := s;
    ghost var pos: nat, done: seq<Block> := s, [];
    Wrap32Small(count);
    Wrap32Small(s);
    while remain > 0
      invariant cursor == Wrap32(pos)
      invariant done + Greedy(pos, remain) == Greedy(s, count) && Spells(out, done)
      decreases remain
    {
      var block, k := WidestBlock(cursor, remain, pos);
      var pfx := BlockPrefix(cursor, block, Block(pos, k));
      GreedyStep(pos, remain, k);
      SpellsAppend(out, done, pfx, Block(pos, k), Greedy(pos + block, remain - block));
      done := done + [Block(pos, k)];
      out := out + [pfx];
      WrapAdd(pos, block);
      Wrap32Small(remain - block);
      pos := pos + block;
      cursor := Wrap32(cursor + block);
      remain := Wrap32(remain - block);
    }
    GreedyNone(pos);
    AtMost62(s, count);
    ExactUnlessWrapped(out, s, count);
    r := Success(out);
  }
}
