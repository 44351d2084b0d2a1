/** Reserved-range classification by longest prefix (internal/bogon/bogon.go), for any table. */
module Bogon {
  import opened Wrappers
  import opened Words
  import opened Addresses
  import opened Sequences

  type Category = string

  const PUBLIC: Category := ""
  const RESERVED: Category := "reserved"

  datatype Entry = Entry(prefix: Prefix, cat: Category)

  // ----- the specification: most specific, first listed -----

  /** Entry i is the one to answer with: it contains ip, no longer prefix does, and no equally long one
      that contains ip is listed before it. */
  ghost predicate IsAnswer(defs: seq<Entry>, ip: Addr, i: nat) {
    && i < |defs| && defs[i].prefix.Contains(ip)
    && forall j :: 0 <= j < |defs| && defs[j].prefix.Contains(ip) ==>
         defs[j].prefix.bits < defs[i].prefix.bits || (defs[j].prefix.bits == defs[i].prefix.bits && i <= j)
  }

  ghost predicate Matches(defs: seq<Entry>, ip: Addr) {
    exists j :: 0 <= j < |defs| && defs[j].prefix.Contains(ip)
  }

  // ----- stable sort, longest prefix first -----

  ghost predicate LongestFirst(s: seq<Entry>) {
    forall i, j :: 0 <= i < j < |s| ==> s[i].prefix.bits >= s[j].prefix.bits
  }

  /** The entries of s with prefixes of b bits, in their order. */
  function OfLength(s: seq<Entry>, b: nat): seq<Entry> {
    if s == [] then [] else (if s[0].prefix.bits == b then [s[0]] else []) + OfLength(s[1..], b)
  }

  /** sorted is the stable sort of s. */
  ghost predicate IsStableSort(sorted: seq<Entry>, s: seq<Entry>) {
    && |sorted| == |s| && LongestFirst(sorted) && forall b: nat :: OfLength(sorted, b) == OfLength(s, b)
  }

  lemma {:induction false} OfLengthConcat(s: seq<Entry>, t: seq<Entry>, b: nat)
    ensures OfLength(s + t, b) == OfLength(s, b) + OfLength(t, b)
    decreases |s|
  {
    if s == [] {
      assert s + t == t;
      EmptyUnit(OfLength(t, b));
    } else {
      OfLengthConcat(s[1..], t, b);
      assert (s + t)[1..] == s[1..] + t && (s + t)[0] == s[0];
      var head := if s[0].prefix.bits == b then [s[0]] else [];
      assert OfLength(s + t, b) == head + OfLength(s[1..] + t, b);
      assert OfLength(s, b) == head + OfLength(s[1..], b);
      hide OfLength;
      SeqAssoc(head, OfLength(s[1..], b), OfLength(t, b));
    }
  }

  lemma {:induction false} OfLengthMembers(s: seq<Entry>, b: nat, e: Entry)
    ensures e in OfLength(s, b) <==> e in s && e.prefix.bits == b
    decreases |s|
  {
    if s != [] {
      OfLengthMembers(s[1..], b, e);
    }
  }

  /** No entry of length b: nothing is kept. */
  lemma {:induction false} OfLengthNone(s: seq<Entry>, b: nat)
    requires forall e <- s :: e.prefix.bits != b
    ensures OfLength(s, b) == []
    decreases |s|
  {
    if s != [] {
      OfLengthNone(s[1..], b);
    }
  }

  lemma InsertStable(s: seq<Entry>, k: nat, x: Entry, b: nat)
    requires k <= |s| && forall i :: k <= i < |s| ==> s[i].prefix.bits < x.prefix.bits
    ensures OfLength(s[..k] + [x] + s[k..], b) == OfLength(s + [x], b)
  {
    assert s[..k] + [x] + s[k..] == s[..k] + ([x] + s[k..]);
    assert s == s[..k] + s[k..];
    OfLengthConcat(s[..k], [x] + s[k..], b);
    OfLengthConcat([x], s[k..], b);
    OfLengthConcat(s, [x], b);
    OfLengthConcat(s[..k], s[k..], b);
    if b == x.prefix.bits {
      OfLengthNone(s[k..], b);
    }
  }

  lemma InsertOrder(s: seq<Entry>, k: nat, x: Entry)
    requires k <= |s| && LongestFirst(s)
    requires forall i :: k <= i < |s| ==> s[i].prefix.bits < x.prefix.bits
    requires k > 0 ==> s[k - 1].prefix.bits >= x.prefix.bits
    ensures LongestFirst(s[..k] + [x] + s[k..])
  {
  }

  lemma InsertSorts(s: seq<Entry>, rows: seq<Entry>, n: nat, k: nat)
    requires n < |rows| && IsStableSort(s, rows[..n]) && k <= |s|
    requires forall i :: k <= i < |s| ==> s[i].prefix.bits < rows[n].prefix.bits
    requires k > 0 ==> s[k - 1].prefix.bits >= rows[n].prefix.bits
    ensures IsStableSort(s[..k] + [rows[n]] + s[k..], rows[..n + 1])
  {
    var x := rows[n];
    assert rows[..n + 1] == rows[..n] + [x];
    forall b: nat
      ensures OfLength(s[..k] + [x] + s[k..], b) == OfLength(rows[..n + 1], b)
    {
      InsertStable(s, k, x, b);
      OfLengthConcat(s, [x], b);
      OfLengthConcat(rows[..n], [x], b);
    }
    InsertOrder(s, k, x);
  }

  function FirstContaining(s: seq<Entry>, ip: Addr): Option<Entry> {
    if s == [] then None
    else if s[0].prefix.Contains(ip) then Some(s[0])
    else FirstContaining(s[1..], ip)
  }

  /** Position of the first element of s that contains ip, among those of length b. */
  lemma {:induction false} FirstOfLength(s: seq<Entry>, b: nat, ip: Addr, n: nat)
    requires n < |s| && s[n].prefix.bits == b && s[n].prefix.Contains(ip)
    requires forall j :: 0 <= j < n ==> !(s[j].prefix.bits == b && s[j].prefix.Contains(ip))
    ensures FirstContaining(OfLength(s, b), ip) == Some(s[n])
    decreases n
  {
    hide Prefix.Contains;
    var rest := OfLength(s[1..], b);
    if s[0].prefix.bits == b {
      assert OfLength(s, b) == [s[0]] + rest;
      assert ([s[0]] + rest)[1..] == rest;
    } else {
      assert OfLength(s, b) == [] + rest == rest;
    }
    if n > 0 {
      assert s[1..][n - 1] == s[n];
      FirstOfLength(s[1..], b, ip, n - 1);
    }
  }

  /** In the unsorted table, the first of length b that contains ip. */
  lemma {:induction false} LocateFirst(s: seq<Entry>, b: nat, ip: Addr) returns (n: nat)
    requires exists j :: 0 <= j < |s| && s[j].prefix.bits == b && s[j].prefix.Contains(ip)
    ensures n < |s| && s[n].prefix.bits == b && s[n].prefix.Contains(ip)
    ensures forall j :: 0 <= j < n ==> !(s[j].prefix.bits == b && s[j].prefix.Contains(ip))
    ensures FirstContaining(OfLength(s, b), ip) == Some(s[n])
    decreases |s|
  {
    hide Prefix.Contains, OfLength, FirstContaining;
    if s[0].prefix.bits == b && s[0].prefix.Contains(ip) {
      n := 0;
    } else {
      var j :| 0 <= j < |s| && s[j].prefix.bits == b && s[j].prefix.Contains(ip);
      assert s[1..][j - 1] == s[j];
      var m := LocateFirst(s[1..], b, ip);
      n := m + 1;
      forall i | 0 <= i < n
        ensures !(s[i].prefix.bits == b && s[i].prefix.Contains(ip))
      {
        if i > 0 { assert s[i] == s[1..][i - 1]; }
      }
    }
    FirstOfLength(s, b, ip, n);
  }

  lemma SameMembers(sorted: seq<Entry>, s: seq<Entry>, e: Entry)
    requires IsStableSort(sorted, s)
    ensures e in sorted <==> e in s
  {
    OfLengthMembers(sorted, e.prefix.bits, e);
    OfLengthMembers(s, e.prefix.bits, e);
  }

  /** The first hit in the sorted table is the answer of the table as it was written. */
  lemma FirstHitAnswers(sorted: seq<Entry>, defs: seq<Entry>, ip: Addr, n: nat)
    requires IsStableSort(sorted, defs) && n < |sorted| && sorted[n].prefix.Contains(ip)
    requires forall j :: 0 <= j < n ==> !sorted[j].prefix.Contains(ip)
    ensures Matches(defs, ip) && exists i: nat :: IsAnswer(defs, ip, i) && defs[i].cat == sorted[n].cat
  {
    var b := sorted[n].prefix.bits;
    FirstOfLength(sorted, b, ip, n);
    SameMembers(sorted, defs, sorted[n]);
    var i := LocateFirst(defs, b, ip);
    assert defs[i] == sorted[n];
    forall j | 0 <= j < |defs| && defs[j].prefix.Contains(ip)
      ensures defs[j].prefix.bits < b || (defs[j].prefix.bits == b && i <= j)
    {
      SameMembers(sorted, defs, defs[j]);
      var m :| 0 <= m < |sorted| && sorted[m] == defs[j];
      assert m >= n;
    }
    assert IsAnswer(defs, ip, i);
  }

  lemma NoHit(sorted: seq<Entry>, defs: seq<Entry>, ip: Addr)
    requires IsStableSort(sorted, defs)
    requires forall j :: 0 <= j < |sorted| ==> !sorted[j].prefix.Contains(ip)
    ensures !Matches(defs, ip)
  {
    forall j | 0 <= j < |defs|
      ensures !defs[j].prefix.Contains(ip)
    {
      SameMembers(sorted, defs, defs[j]);
    }
  }

  // ----- the table -----

  class Table {
    var prefixes: seq<Entry>
    ghost var defs: seq<Entry>

    ghost predicate Valid()
      reads this
    {
      IsStableSort(prefixes, defs)
    }

    method SortStable()
      modifies this`prefixes
      ensures IsStableSort(prefixes, old(prefixes))
    {
      var rows := prefixes;
      prefixes := [];
      assert IsStableSort([], rows[..0]);
      hide IsStableSort, Prefix.Contains;
      for n := 0 to |rows|
        invariant IsStableSort(prefixes, rows[..n])
      {
        var k := |prefixes|;
        while k > 0 && prefixes[k - 1].prefix.bits < rows[n].prefix.bits
          invariant 0 <= k <= |prefixes|
          invariant forall i :: k <= i < |prefixes| ==> prefixes[i].prefix.bits < rows[n].prefix.bits
        {
          k := k - 1;
        }
        InsertSorts(prefixes, rows, n, k);
        prefixes := prefixes[..k] + [rows[n]] + prefixes[k..];
      }
      assert rows[..|rows|] == rows;
    }

    /** init: append every definition, then sort stably by descending prefix length. */
    constructor (defs: seq<Entry>)
      ensures Valid() && this.defs == defs
    {
      prefixes := [];
      this.defs := defs;
      new;
      for n := 0 to |defs|
        invariant this.defs == defs && prefixes == defs[..n]
      {
        prefixes := prefixes + [defs[n]];
      }
      assert defs[..|defs|] == defs;
      SortStable();
    }

    /** Match: the zero address is reserved; otherwise the category of the answering entry, or public. */
    method Match(ip: Addr) returns (cat: Category)
      requires Valid()
      ensures ip.Invalid? ==> cat == "reserved"
      ensures !ip.Invalid? && !Matches(defs, ip.Unmap()) ==> cat == ""
      ensures !ip.Invalid? && Matches(defs, ip.Unmap()) ==>
                exists i: nat :: IsAnswer(defs, ip.Unmap(), i) && cat == defs[i].cat
    {
      if ip.Invalid? {
        return RESERVED;
      }
      var u := ip.Unmap();
      for n := 0 to |prefixes|
        invariant forall j :: 0 <= j < n ==> !prefixes[j].prefix.Contains(u)
      {
        if prefixes[n].prefix.Contains(u) {
          FirstHitAnswers(prefixes, defs, u, n);
          return prefixes[n].cat;
        }
      }
      NoHit(prefixes, defs, u);
      return PUBLIC;
    }

    method IsBogon(ip: Addr) returns (b: bool)
      requires Valid()
      ensures ip.Invalid? ==> b
      ensures b && !ip.Invalid? ==> Matches(defs, ip.Unmap())
      ensures Matches(defs, ip.Unmap()) && (forall e <- defs :: e.cat != PUBLIC) ==> b
    {
      var cat := Match(ip);
      return cat != PUBLIC;
    }
  }

  // ----- zones -----

  lemma ZoneDefeats(defs: seq<Entry>, ip: Addr)
    ensures Matches(defs, ip) <==> !ip.HasZone() && Matches(defs, ip.WithoutZone())
  {
    forall j | 0 <= j < |defs|
      ensures defs[j].prefix.Contains(ip) <==> !ip.HasZone() && defs[j].prefix.Contains(ip.WithoutZone())
    {
    }
  }

  /** The bits alone decide for an address without a zone; with one no entry ever matches. A zone goes
      only from an address that is unmapped to IPv4. */
  lemma ZoneDefeatsEveryEntry(defs: seq<Entry>, ip: Addr)
    ensures Matches(defs, ip) <==> !ip.HasZone() && Matches(defs, ip.WithoutZone())
    ensures Matches(defs, ip.Unmap()) <==>
              (!ip.HasZone() || ip.Unmap().V4?) && Matches(defs, ip.Unmap().WithoutZone())
  {
    ZoneDefeats(defs, ip);
    ZoneDefeats(defs, ip.Unmap());
  }

  /** So a link-local address with a zone is answered public, although fe80::/10 is listed and holds it
      without the zone. */
  lemma ZonedLinkLocalIsPublic(defs: seq<Entry>, lo: u64, zone: string)
    requires Entry(Prefix(V6(0xfe80_0000_0000_0000, 0, ""), 10), "link-local") in defs
    ensures Matches(defs, V6(0xfe80_0000_0000_0000, lo, ""))
    ensures zone != "" ==> !Matches(defs, V6(0xfe80_0000_0000_0000, lo, zone).Unmap())
  {
    var p, ip := Prefix(V6(0xfe80_0000_0000_0000, 0, ""), 10), V6(0xfe80_0000_0000_0000, lo, "");
    var e := Entry(p, "link-local");
    var j :| 0 <= j < |defs| && defs[j] == e;
    ShrTwice(ip.Num(), 64, 54);
    ShrTwice(p.addr.Num(), 64, 54);
    HighHalf(0xfe80_0000_0000_0000, lo);
    HighHalf(0xfe80_0000_0000_0000, 0);
    hide Shr;
    assert p.Contains(ip);
  }

  // ----- what longest means -----

  /** The answering prefix is the most specific: its addresses lie in every prefix that contains ip. */
  lemma AnswerIsMostSpecific(defs: seq<Entry>, ip: Addr, i: nat, j: nat, other: Addr)
    requires j < |defs|
    ensures IsAnswer(defs, ip, i) && defs[j].prefix.Contains(ip) && defs[i].prefix.Contains(other) ==>
              defs[j].prefix.Contains(other)
  {
    hide Prefix.Contains;
    if IsAnswer(defs, ip, i) && defs[j].prefix.Contains(ip) {
      SharedPrefixesNest(defs[i].prefix, defs[j].prefix, ip, other);
    }
  }

  /** No two entries denote the same block. */
  ghost predicate NoDuplicates(defs: seq<Entry>) {
    forall i, j, ip: Addr :: 0 <= i < j < |defs| && defs[i].prefix.bits == defs[j].prefix.bits ==>
      !(defs[i].prefix.Contains(ip) && defs[j].prefix.Contains(ip))
  }

  /** Without duplicates the order in which the table is written does not matter. */
  lemma OrderIrrelevant(a: seq<Entry>, b: seq<Entry>, ip: Addr, i: nat, j: nat)
    requires multiset(a) == multiset(b) && NoDuplicates(a)
    requires IsAnswer(a, ip, i) && IsAnswer(b, ip, j)
    ensures a[i] == b[j]
  {
    assert b[j] in multiset(b) && a[i] in multiset(a);
    assert b[j] in a && a[i] in b;
    var m :| 0 <= m < |a| && a[m] == b[j];
    var n :| 0 <= n < |b| && b[n] == a[i];
    assert a[m].prefix.bits == a[i].prefix.bits;
  }

  lemma MappedIsUnmapped(u: Addr)
    requires u.V6? && 0xffff_0000_0000 <= u.Num() < 0xffff_0000_0000 + POW32
    ensures u.Unmap().V4?
  {
  }

  lemma UnmapTwice(ip: Addr)
    ensures ip.Unmap().Unmap() == ip.Unmap()
  {
  }

  lemma MappedBlock(a: Addr)
    requires a.V6? && a.hi == 0 && a.lo / POW32 == 0xffff
    ensures ClearLow(a.Num(), 32) == 0xffff_0000_0000
  {
    hide Pow2, Aligned, ClearLow;
    Pow2Is32();
    var c, m := ClearLow(a.Num(), 32), 0xffff_0000_0000;
    ClearLowAligned(a.Num(), 32);
    MultipleAligned(32, 0xffff);
    if c < m {
      AlignedGap(c, m, 32);
    } else if m < c {
      AlignedGap(m, c, 32);
    }
  }

  /** Since addresses are unmapped first, an entry inside ::ffff:0:0/96 never answers
      (RFC 4291, section 2.5.5.2). */
  lemma MappedEntriesAreDead(p: Prefix, ip: Addr)
    requires p.bits >= 96 && p.addr.V6? && p.addr.hi == 0 && p.addr.lo / POW32 == 0xffff
    ensures !p.Contains(ip.Unmap())
  {
    hide Shr, ClearLow, Pow2;
    var u := ip.Unmap();
    if p.Contains(u) && u.V6? {
      CoarserAgrees(u.Num(), p.addr.Num(), 128 - p.bits, 32);
      Pow2Is32();
      hide Prefix.Contains, Addr.Num, Addr.Unmap;
      SameBlock(p.addr.Num(), u.Num(), 32);
      MappedBlock(p.addr);
      MappedIsUnmapped(u);
      UnmapTwice(ip);
    }
  }
}
