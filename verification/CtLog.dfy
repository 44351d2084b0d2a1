/** Certificate selection and id rendering of the CT-log client (internal/ctlog/client.go). */
module CtLog {
  import opened Decimal
  import opened Sorting

  const MIN64: int := -0x8000_0000_0000_0000
  const MAX64: int := 0x7fff_ffff_ffff_ffff

  type i64 = x: int | MIN64 <= x <= MAX64

  // ----- itoa -----

  /** The canonical decimal rendering. */
  function Rendering(n: int): string {
    if n < 0 then "-" + Digits(-n) else Digits(n)
  }

  /** The number a rendering stands for. */
  function Denoted(s: string): int
    requires if s != "" && s[0] == '-' then AllDigits(s[1..]) else AllDigits(s)
  {
    if s != "" && s[0] == '-' then 0 - Value(s[1..]) else Value(s)
  }

  lemma RenderingDenotes(n: int)
    ensures var s := Rendering(n);
            && s != "" && s != "-" && AllDigits(if s[0] == '-' then s[1..] else s)
            && Denoted(s) == n
  {
    DigitsDenote(if n < 0 then -n else n);
    if n < 0 {
      assert Rendering(n)[1..] == Digits(-n);
    }
  }

  /** Most significant digit first, after a minus sign for a negative number. */
  lemma RenderingIs(n: int, d: nat)
    requires n >= 0 && d < 10
    ensures n > 0 ==> Rendering(10 * n + d) == Rendering(n) + [('0' as int + d) as char]
    ensures n > 0 ==> Rendering(-n) == "-" + Rendering(n)
    ensures Rendering(d) == [('0' as int + d) as char]
    ensures Rendering(-120) == "-120"
  {
    assert Digits(120) == Digits(12) + "0" && Digits(12) == Digits(1) + "2" && Digits(1) == "1";
  }

  /** Distinct ids are rendered, and so queried, differently; the minimum's "-" is no other id's rendering. */
  lemma RenderingInjective(m: int, n: int)
    ensures Rendering(m) == Rendering(n) ==> m == n
    ensures Rendering(m) != "-"
  {
    RenderingDenotes(m);
    RenderingDenotes(n);
  }

  /** -n in int64 arithmetic: the minimum is its own negation. */
  function Neg64(n: i64): i64 { if n == MIN64 then MIN64 else -n }

  /** The digits the loop has still to write. */
  function Remaining(n: int): string { if n > 0 then Digits(n) else "" }

  lemma RemainingSplits(n: i64, tail: string)
    requires n > 0
    ensures |Remaining(n)| >= 1
    ensures Remaining(n) + tail == Remaining(n / 10) + ([DigitChar(n % 10)] + tail)
  {
  }

  lemma FitsIn19(n: i64)
    ensures |Remaining(n)| <= 19
  {
    assert Pow10(5) == 100000;
    assert Pow10(10) == 100000 * Pow10(5);
    assert Pow10(15) == 100000 * Pow10(10);
    assert Pow10(19) == 10000 * Pow10(15);
    if n > 0 {
      DigitsLength(n, 19);
    }
  }

  /** The digit loop: fill the buffer from its end, leaving room for a sign. */
  method FillDigits(buf: array<char>, id: i64) returns (pos: nat)
    requires buf.Length == 20
    modifies buf
    ensures 1 <= pos <= 20 && buf[pos..] == Remaining(id)
  {
    hide Digits, DigitChar;
    pos := buf.Length;
    var n := id;
    ghost var whole := Remaining(id);
    FitsIn19(id);
    while n > 0
      invariant 1 <= pos <= 20 && |whole| <= 19 && whole == Remaining(n) + buf[pos..]
      decreases n
    {
      ghost var tail := buf[pos..];
      RemainingSplits(n, tail);
      pos := pos - 1;
      buf[pos] := DigitChar(n % 10);
      assert buf[pos..] == [DigitChar(n % 10)] + tail;
      n := n / 10;
    }
  }

  lemma ZeroIs0()
    ensures Rendering(0) == "0"
  {
  }

  method Itoa(id: i64) returns (s: string)
    ensures s == Rendering(id) <==> id != MIN64
    ensures id == MIN64 ==> s == "-"
  {
    hide Digits, AllDigits, Value, Denoted;
    RenderingDenotes(id);
    if id == 0 {
      ZeroIs0();
      return "0";
    }
    var buf := new char[20];
    var n: i64 := id;
    var neg := n < 0;
    if neg {
      n := Neg64(n);
    }
    var pos := FillDigits(buf, n);
    if neg {
      ghost var digits := buf[pos..];
      pos := pos - 1;
      buf[pos] := '-';
      assert buf[pos..] == ['-'] + digits;
    }
    return buf[pos..];
  }

  // ----- queryIDs -----

  predicate Distinct(ids: seq<i64>) { forall i, j :: 0 <= i < j < |ids| ==> ids[i] != ids[j] }

  /** The nonzero ids in the order in which they first appear. */
  function FirstAppearances(ids: seq<i64>): seq<i64> {
    if ids == [] then []
    else
      var before := FirstAppearances(ids[..|ids| - 1]);
      var id := ids[|ids| - 1];
      if id == 0 || id in ids[..|ids| - 1] then before else before + [id]
  }

  lemma {:induction false} FirstAppearancesAre(ids: seq<i64>)
    ensures Distinct(FirstAppearances(ids))
    ensures forall id :: id in FirstAppearances(ids) <==> id in ids && id != 0
    decreases |ids|
  {
    if ids != [] {
      FirstAppearancesAre(ids[..|ids| - 1]);
      assert ids == ids[..|ids| - 1] + [ids[|ids| - 1]];
    }
  }

  method QueryIDs(entries: seq<i64>) returns (out: seq<i64>)
    ensures out == FirstAppearances(entries)
  {
    out := [];
    var seen: set<i64> := {};
    for i := 0 to |entries|
      invariant out == FirstAppearances(entries[..i])
      invariant forall id :: id in seen <==> id in entries[..i] && id != 0
    {
      var id := entries[i];
      assert entries[..i + 1][..i] == entries[..i];
      if id == 0 || id in seen {
        continue;
      }
      seen := seen + {id};
      out := out + [id];
    }
    assert entries[..|entries|] == entries;
  }

  // ----- scan -----

  /** The nonzero ids smaller than id. */
  function Below(entries: seq<i64>, id: i64): set<i64> { set x | x in entries && x != 0 && x < id }

  /** id is among the limit smallest distinct nonzero ids. */
  predicate Candidate(entries: seq<i64>, limit: nat, id: i64) {
    id in entries && id != 0 && |Below(entries, id)| < limit
  }

  /** The smallest candidate that has a country decides; without one the answer is empty. */
  ghost predicate IsScan(entries: seq<i64>, limit: nat, country: i64 -> string, cc: string) {
    if cc == "" then forall id :: Candidate(entries, limit, id) ==> country(id) == ""
    else exists id ::
      && Candidate(entries, limit, id) && country(id) == cc
      && forall x :: x in entries && x != 0 && x < id ==> country(x) == ""
  }

  /** How many certificates are looked at: MaxCerts, or ten when it is not positive. */
  function Limit(maxCerts: int): nat { if maxCerts <= 0 then 10 else maxCerts }

  /** sorted lists the distinct nonzero ids in ascending order. */
  ghost predicate Ranked(entries: seq<i64>, sorted: seq<i64>) {
    && (forall id :: id in sorted <==> id in entries && id != 0)
    && (forall i :: 0 <= i < |sorted| ==> |Below(entries, sorted[i])| == i)
    && (forall i, j :: 0 <= i < j < |sorted| ==> sorted[i] < sorted[j])
  }

  lemma HitIsScan(entries: seq<i64>, sorted: seq<i64>, limit: nat, country: i64 -> string, k: nat)
    requires Ranked(entries, sorted) && k < |sorted| && k < limit && country(sorted[k]) != ""
    requires forall j :: 0 <= j < k ==> country(sorted[j]) == ""
    ensures IsScan(entries, limit, country, country(sorted[k]))
  {
  }

  lemma MissIsScan(entries: seq<i64>, sorted: seq<i64>, limit: nat, country: i64 -> string)
    requires Ranked(entries, sorted)
    requires forall j :: 0 <= j < |sorted| && j < limit ==> country(sorted[j]) == ""
    ensures IsScan(entries, limit, country, "")
  {
  }

  function Elements(s: seq<i64>): set<i64> { set x | x in s }

  lemma BelowIsPrefix(entries: seq<i64>, sorted: seq<i64>, i: nat)
    requires i < |sorted| && forall id :: id in sorted <==> id in entries && id != 0
    requires forall a, b :: 0 <= a < b < |sorted| ==> sorted[a] < sorted[b]
    ensures Below(entries, sorted[i]) == Elements(sorted[..i])
  {
    forall x: i64
      ensures x in Below(entries, sorted[i]) <==> x in Elements(sorted[..i])
    {
      if x in Below(entries, sorted[i]) {
        var j :| 0 <= j < |sorted| && sorted[j] == x;
        assert j < i;
        assert sorted[..i][j] == x;
      }
    }
  }

  lemma {:induction false} DistinctCount(a: seq<i64>, x: i64)
    requires Distinct(a)
    ensures multiset(a)[x] <= 1
    decreases |a|
  {
    if a != [] {
      DistinctCount(a[1..], x);
      assert a == [a[0]] + a[1..];
      assert forall i :: 1 <= i < |a| ==> a[1..][i - 1] == a[i];
      if x == a[0] {
        assert x !in a[1..];
        assert multiset(a[1..])[x] == 0;
      }
    }
  }

  lemma TwiceCounts(b: seq<i64>, i: nat, j: nat)
    requires i < j < |b| && b[i] == b[j]
    ensures multiset(b)[b[i]] >= 2
  {
    assert b == b[..j] + b[j..];
    assert b[i] in b[..j] && b[j] in b[j..];
    assert b[i] in multiset(b[..j]) && b[i] in multiset(b[j..]);
  }

  lemma DistinctTransfers(a: seq<i64>, b: seq<i64>)
    requires Distinct(a) && multiset(a) == multiset(b)
    ensures Distinct(b)
  {
    forall i, j | 0 <= i < j < |b|
      ensures b[i] != b[j]
    {
      DistinctCount(a, b[i]);
      if b[i] == b[j] {
        TwiceCounts(b, i, j);
      }
    }
  }

  lemma SortedIds(distinct: seq<i64>, sorted: seq<i64>)
    requires Distinct(distinct) && IsSorting(sorted, distinct, (id: i64) => id)
    ensures forall id :: id in sorted <==> id in distinct
    ensures Distinct(sorted) && forall i, j :: 0 <= i < j < |sorted| ==> sorted[i] < sorted[j]
  {
    var key := (id: i64) => id;
    assert forall id :: id in sorted <==> id in multiset(sorted);
    assert forall id :: id in distinct <==> id in multiset(distinct);
    DistinctTransfers(distinct, sorted);
    forall i, j | 0 <= i < j < |sorted|
      ensures sorted[i] < sorted[j]
    {
      assert key(sorted[i]) <= key(sorted[j]);
    }
  }

  lemma ElementsNext(s: seq<i64>, x: i64)
    requires x !in s
    ensures |Elements(s + [x])| == |Elements(s)| + 1
  {
    assert Elements(s + [x]) == Elements(s) + {x};
  }

  lemma {:induction false} PrefixSize(s: seq<i64>, i: nat)
    requires i <= |s| && Distinct(s)
    ensures |Elements(s[..i])| == i
    decreases i
  {
    if i == 0 {
      assert Elements(s[..0]) == {};
    } else {
      PrefixSize(s, i - 1);
      assert s[i - 1] !in s[..i - 1];
      ElementsNext(s[..i - 1], s[i - 1]);
      assert s[..i] == s[..i - 1] + [s[i - 1]];
    }
  }

  /** Position in the sorted list is the number of smaller distinct nonzero ids. */
  lemma SortedRanks(entries: seq<i64>, distinct: seq<i64>, sorted: seq<i64>)
    requires distinct == FirstAppearances(entries)
    requires IsSorting(sorted, distinct, (id: i64) => id)
    ensures Ranked(entries, sorted)
  {
    hide FirstAppearances;
    FirstAppearancesAre(entries);
    SortedIds(distinct, sorted);
    forall i | 0 <= i < |sorted|
      ensures |Below(entries, sorted[i])| == i
    {
      BelowIsPrefix(entries, sorted, i);
      PrefixSize(sorted, i);
    }
  }

  /** country is what a certificate fetch yields; budget is how many fetches the time limit admits:
      the deadline is looked at only after a fetch that found nothing, so there is always one. */
  method ScanCerts(entries: seq<i64>, maxCerts: int, budget: nat, country: i64 -> string) returns (cc: string)
    requires budget >= 1
    ensures var limit := if maxCerts <= 0 then 10 else maxCerts;
            IsScan(entries, if budget < limit then budget else limit, country, cc)
  {
    hide IsScan, Ranked, FirstAppearances;
    ghost var bound := if budget < Limit(maxCerts) then budget else Limit(maxCerts);
    var ids := QueryIDs(entries);
    ghost var distinct := ids;
    ids := SortSlice(ids, (id: i64) => id);
    ghost var sorted := ids;
    SortedRanks(entries, distinct, sorted);
    if |ids| == 0 {
      MissIsScan(entries, sorted, bound, country);
      return "";
    }
    var limit := maxCerts;
    if limit <= 0 {
      limit := 10;
    }
    if |ids| > limit {
      ids := ids[..limit];
    }
    hide Limit, IsSorting;
    assert |ids| <= limit && ids == sorted[..|ids|] && (|ids| < limit ==> ids == sorted);
    for i := 0 to |ids|
      invariant forall j :: 0 <= j < i ==> country(sorted[j]) == ""
      invariant i < budget
    {
      cc := country(ids[i]);
      if cc != "" {
        HitIsScan(entries, sorted, bound, country, i);
        return cc;
      }
      if i + 1 == budget {
        MissIsScan(entries, sorted, bound, country);
        return "";
      }
    }
    MissIsScan(entries, sorted, bound, country);
    return "";
  }
}
