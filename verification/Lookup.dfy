/** Address and ASN lookup by binary search (internal/rir/sorted.go). */
module Lookup {
  import opened Wrappers
  import opened Words
  import opened Addresses
  import opened RirTypes

  // ----- sort.Search -----

  /** Where half-open bisection of [lo, hi) ends up, whatever f is. */
  function Bisect(f: nat -> bool, lo: nat, hi: nat): (i: nat)
    requires lo <= hi
    ensures lo <= i <= hi
    decreases hi - lo
  {
    if lo == hi then lo
    else
      var h := (lo + hi) / 2;
      if !f(h) then Bisect(f, h + 1, hi) else Bisect(f, lo, h)
  }

  method Search(n: nat, f: nat -> bool) returns (i: nat)
    ensures i == Bisect(f, 0, n)
  {
    var j := n;
    i := 0;
    while i < j
      invariant 0 <= i <= j <= n
      invariant Bisect(f, i, j) == Bisect(f, 0, n)
      decreases j - i
    {
      var h := (i + j) / 2;
      if !f(h) {
        i := h + 1;
      } else {
        j := h;
      }
    }
  }

  lemma BisectStep(f: nat -> bool, lo: nat, hi: nat)
    requires lo < hi
    ensures var h := (lo + hi) / 2;
            && lo <= h < hi
            && Bisect(f, lo, hi) == if !f(h) then Bisect(f, h + 1, hi) else Bisect(f, lo, h)
  {
  }

  /** The result is a boundary of f even when f is not monotone. */
  lemma {:induction false} BisectBoundary(f: nat -> bool, lo: nat, hi: nat)
    requires lo <= hi
    ensures var i := Bisect(f, lo, hi); (i < hi ==> f(i)) && (i > lo ==> !f(i - 1))
    decreases hi - lo
  {
    if lo < hi {
      var h := (lo + hi) / 2;
      BisectStep(f, lo, hi);
      hide Bisect;
      var i := Bisect(f, lo, hi);
      if f(h) {
        BisectBoundary(f, lo, h);
        assert i < h || i == h;
      } else {
        BisectBoundary(f, h + 1, hi);
        assert i > h + 1 || i - 1 == h;
      }
    }
  }

  /** When f never turns false again, the result is the first index where it is true. */
  lemma BisectFirst(f: nat -> bool, n: nat, k: nat)
    requires forall i, j :: 0 <= i < j < n && f(i) ==> f(j)
    requires k < n
    ensures f(k) <==> Bisect(f, 0, n) <= k
  {
    BisectBoundary(f, 0, n);
  }

  // ----- comparing 128-bit addresses -----

  function Cmp128(ah: u64, al: u64, bh: u64, bl: u64): int {
    if ah < bh then -1
    else if ah > bh then 1
    else if al < bl then -1
    else if al > bl then 1
    else 0
  }

  lemma Cmp128IsNumeric(ah: u64, al: u64, bh: u64, bl: u64)
    ensures Cmp128(ah, al, bh, bl) < 0 <==> Num128(ah, al) < Num128(bh, bl)
    ensures Cmp128(ah, al, bh, bl) == 0 <==> Num128(ah, al) == Num128(bh, bl)
    ensures Cmp128(ah, al, bh, bl) > 0 <==> Num128(ah, al) > Num128(bh, bl)
  {
  }

  // ----- the lookups -----

  datatype Hit = Hit(cc: string, registry: string, status: u8, date: u32)

  function HitOf(t: Tag): Hit {
    Hit([t.cc0 as char, t.cc1 as char], RegistryName(t.registry), t.status, t.date)
  }

  /** A row whose country starts with a zero byte counts as a miss. */
  function Answer(t: Option<Tag>): Option<Hit> {
    if t.None? || t.value.cc0 == 0 then None else Some(HitOf(t.value))
  }

  /** The row search: the first row (by bisection) that reaches the key, if it also begins at or before it. */
  function Find<T>(rows: seq<T>, begins: T -> bool, reaches: T -> bool): Option<T> {
    var i := Bisect((k: nat) => k < |rows| && reaches(rows[k]), 0, |rows|);
    if i < |rows| && begins(rows[i]) then Some(rows[i]) else None
  }

  function Find32(rows: seq<Range32>, u: u32): Option<Tag> {
    var row := Find(rows, (r: Range32) => r.start <= u, (r: Range32) => r.end >= u);
    if row.Some? then Some(row.value.tag) else None
  }

  function Find128(rows: seq<Range128>, hi: u64, lo: u64): Option<Tag> {
    var row := Find(rows,
                    (r: Range128) => Cmp128(r.startHi, r.startLo, hi, lo) <= 0,
                    (r: Range128) => Cmp128(r.endHi, r.endLo, hi, lo) >= 0);
    if row.Some? then Some(row.value.tag) else None
  }

  function LookupIP(db: DB, ip: Addr): Option<Hit> {
    match ip.Unmap()
    case Invalid => None
    case V4(a, b, c, d) => Answer(Find32(db.v4, V4ToU32(V4(a, b, c, d))))
    case V6(hi, lo, _) => Answer(Find128(db.v6, hi, lo))
  }

  function LookupASN(db: DB, asn: u32): Option<Hit> {
    Answer(Find32(db.asn, asn))
  }

  // ----- what a search result means -----

  /** Whatever the order of the rows, a row that is found begins at or before the key and reaches it. */
  lemma FoundRowContains<T>(rows: seq<T>, begins: T -> bool, reaches: T -> bool)
    ensures var r := Find(rows, begins, reaches);
            r.Some? ==> r.value in rows && begins(r.value) && reaches(r.value)
  {
    BisectBoundary((k: nat) => k < |rows| && reaches(rows[k]), 0, |rows|);
  }

  /** Rows come in an order in which neither starts nor ends ever go back. */
  ghost predicate Marching<T>(rows: seq<T>, begins: T -> bool, reaches: T -> bool) {
    && (forall i, j :: 0 <= i < j < |rows| && reaches(rows[i]) ==> reaches(rows[j]))
    && (forall i, j :: 0 <= i < j < |rows| && begins(rows[j]) ==> begins(rows[i]))
  }

  /** On marching rows a search finds something whenever some row contains the key. */
  lemma MarchingRowsAreFound<T>(rows: seq<T>, begins: T -> bool, reaches: T -> bool)
    requires Marching(rows, begins, reaches)
    ensures Find(rows, begins, reaches).Some? <==> exists r :: r in rows && begins(r) && reaches(r)
  {
    FoundRowContains(rows, begins, reaches);
    if r :| r in rows && begins(r) && reaches(r) {
      var k :| 0 <= k < |rows| && rows[k] == r;
      BisectFirst((k: nat) => k < |rows| && reaches(rows[k]), |rows|, k);
      var i := Bisect((k: nat) => k < |rows| && reaches(rows[k]), 0, |rows|);
      if i < k {
        assert begins(rows[i]);
      }
    }
  }

  ghost predicate Contains32(r: Range32, u: u32) { r.start <= u <= r.end }

  ghost predicate Contains128(r: Range128, hi: u64, lo: u64) {
    Num128(r.startHi, r.startLo) <= Num128(hi, lo) <= Num128(r.endHi, r.endLo)
  }

  ghost predicate Sorted32(rows: seq<Range32>) {
    forall i, j :: 0 <= i < j < |rows| ==> rows[i].start <= rows[j].start && rows[i].end <= rows[j].end
  }

  ghost predicate Sorted128(rows: seq<Range128>) {
    forall i, j :: 0 <= i < j < |rows| ==>
      && Num128(rows[i].startHi, rows[i].startLo) <= Num128(rows[j].startHi, rows[j].startLo)
      && Num128(rows[i].endHi, rows[i].endLo) <= Num128(rows[j].endHi, rows[j].endLo)
  }

  /** IPv4 and ASN tables: a hit comes from a row that contains the key, in any table; in a table
      with nondecreasing starts and ends there is a hit exactly when some row contains the key. */
  lemma Find32Correct(rows: seq<Range32>, u: u32)
    ensures Find32(rows, u).Some? ==> exists r :: r in rows && Contains32(r, u) && r.tag == Find32(rows, u).value
    ensures Sorted32(rows) ==> (Find32(rows, u).Some? <==> exists r :: r in rows && Contains32(r, u))
  {
    var begins := (r: Range32) => r.start <= u;
    var reaches := (r: Range32) => r.end >= u;
    FoundRowContains(rows, begins, reaches);
    var row := Find(rows, begins, reaches);
    if row.Some? {
      assert Contains32(row.value, u);
    }
    if Sorted32(rows) {
      assert Marching(rows, begins, reaches);
      MarchingRowsAreFound(rows, begins, reaches);
      if r :| r in rows && Contains32(r, u) {
        assert begins(r) && reaches(r);
      }
    }
  }

  /** The same for the IPv6 table, whose keys are compared half by half. */
  lemma Find128Correct(rows: seq<Range128>, hi: u64, lo: u64)
    ensures Find128(rows, hi, lo).Some? ==>
              exists r :: r in rows && Contains128(r, hi, lo) && r.tag == Find128(rows, hi, lo).value
    ensures Sorted128(rows) ==> (Find128(rows, hi, lo).Some? <==> exists r :: r in rows && Contains128(r, hi, lo))
  {
    var begins := (r: Range128) => Cmp128(r.startHi, r.startLo, hi, lo) <= 0;
    var reaches := (r: Range128) => Cmp128(r.endHi, r.endLo, hi, lo) >= 0;
    forall r: Range128
      ensures begins(r) && reaches(r) <==> Contains128(r, hi, lo)
      ensures begins(r) <==> Num128(r.startHi, r.startLo) <= Num128(hi, lo)
      ensures reaches(r) <==> Num128(r.endHi, r.endLo) >= Num128(hi, lo)
    {
      Cmp128IsNumeric(r.startHi, r.startLo, hi, lo);
      Cmp128IsNumeric(r.endHi, r.endLo, hi, lo);
    }
    hide Cmp128, Num128;
    FoundRowContains(rows, begins, reaches);
    var row := Find(rows, begins, reaches);
    if row.Some? {
      assert Contains128(row.value, hi, lo);
    }
    if Sorted128(rows) {
      assert Marching(rows, begins, reaches);
      MarchingRowsAreFound(rows, begins, reaches);
      if r :| r in rows && Contains128(r, hi, lo) {
        assert begins(r) && reaches(r);
      }
    }
  }

  ghost predicate Holds(db: DB, ip: Addr, t: Tag) {
    match ip.Unmap()
    case Invalid => false
    case V4(a, b, c, d) => exists r :: r in db.v4 && Contains32(r, V4ToU32(V4(a, b, c, d))) && r.tag == t
    case V6(hi, lo, _) => exists r :: r in db.v6 && Contains128(r, hi, lo) && r.tag == t
  }

  /** The rows that contain the address say the same; so it is when rows do not overlap. */
  ghost predicate OneTag(db: DB, ip: Addr) {
    forall t, u :: Holds(db, ip, t) && Holds(db, ip, u) ==> t == u
  }

  /** A hit is the data of a row, of the unmapped address's own family, that contains the address, whatever
      the table. In sorted tables there is a hit exactly when some row contains it, if all rows name a country;
      and exactly when some row that contains it names a country, if the rows that contain it agree. */
  lemma LookupIPCorrect(db: DB, ip: Addr)
    ensures LookupIP(db, ip).Some? ==> exists t :: Holds(db, ip, t) && t.cc0 != 0 && LookupIP(db, ip).value == HitOf(t)
    ensures (&& Sorted32(db.v4) && (forall r <- db.v4 :: r.tag.cc0 != 0)
             && Sorted128(db.v6) && (forall r <- db.v6 :: r.tag.cc0 != 0))
            ==> (LookupIP(db, ip).Some? <==> exists t :: Holds(db, ip, t))
    ensures Sorted32(db.v4) && Sorted128(db.v6) && OneTag(db, ip)
            ==> (LookupIP(db, ip).Some? <==> exists t :: Holds(db, ip, t) && t.cc0 != 0)
  {
    hide Find32, Find128, Contains32, Contains128, HitOf, Sorted32, Sorted128, V4ToU32;
    match ip.Unmap()
    case Invalid =>
    case V4(a, b, c, d) =>
      var u := V4ToU32(V4(a, b, c, d));
      Find32Correct(db.v4, u);
      if Find32(db.v4, u).Some? {
        assert Holds(db, ip, Find32(db.v4, u).value);
      }
    case V6(hi, lo, _) =>
      Find128Correct(db.v6, hi, lo);
      if Find128(db.v6, hi, lo).Some? {
        assert Holds(db, ip, Find128(db.v6, hi, lo).value);
      }
  }
}
