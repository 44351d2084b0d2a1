/** From delegated records to answers: what a lookup on the built, saved and reloaded
    index says, against a linear scan of the records themselves. */
module EndToEnd {
  import opened Wrappers
  import opened Words
  import opened Decimal
  import opened Addresses
  import opened RirTypes
  import opened Builder
  import opened Sorting
  import opened Lookup
  import opened Snapshot
  import Parser
  import Cidr
  import SnapshotIO

  // ----- the specification: numbers without wrap-around, records in file order -----

  /** The first and last number a record delegates, computed without wrapping;
      None when the record is skipped by design. */
  function SpanOf(lib: Library, r: Record): Option<(nat, nat)> {
    if |r.cc| != 2 || r.value == 0 then None
    else
      match r.kind
      case TypeIPv4 =>
        var a := lib.parseAddr(r.start);
        if a.Some? && a.value.V4? then
          var u := V4ToU32(a.value);
          Some((u, u + r.value - 1))
        else None
      case TypeIPv6 =>
        var a := lib.parseAddr(r.start);
        if a.Some? && a.value.V6? && r.value <= 128 then
          var n := Num128(a.value.hi, a.value.lo);
          Some((n, BlockEnd(n, 128 - r.value)))
        else None
      case TypeASN =>
        if AllDigits(r.start) then Some((Value(r.start), Value(r.start) + r.value - 1)) else None
  }

  predicate Covers(lib: Library, kind: RecordType, r: Record, x: nat) {
    var s := SpanOf(lib, r);
    r.kind == kind && s.Some? && s.value.0 <= x <= s.value.1
  }

  /** The registry as it is written, with the one alias resolved. */
  function RegistryText(s: string): string {
    if s in {"apnic", "arin", "ripencc", "lacnic", "afrinic", "iana"} then s
    else if s == "ripe" then "ripencc"
    else ""
  }

  function HitOfRecord(r: Record): Hit { Hit(r.cc, RegistryText(r.registry), r.status, r.date) }

  /** The first record of the kind that covers x. */
  function Scan(lib: Library, records: seq<Record>, kind: RecordType, x: nat): Option<Hit> {
    if records == [] then None
    else if Covers(lib, kind, records[0], x) then Some(HitOfRecord(records[0]))
    else Scan(lib, records[1..], kind, x)
  }

  function ScanIP(lib: Library, records: seq<Record>, ip: Addr): Option<Hit> {
    match ip.Unmap()
    case Invalid => None
    case V4(_, _, _, _) => Scan(lib, records, TypeIPv4, ip.Unmap().Num())
    case V6(_, _, _) => Scan(lib, records, TypeIPv6, ip.Unmap().Num())
  }

  /** Accepted by the builder, and, when it delegates anything, inside the number space and
      with a country of two bytes of which the first is not zero. */
  predicate WellFormed(lib: Library, r: Record) {
    && Reject(lib, r).None?
    && (SpanOf(lib, r).Some? ==>
          && (r.kind.TypeIPv6? || SpanOf(lib, r).value.1 < POW32)
          && 0 < r.cc[0] as int < 0x100 && r.cc[1] as int < 0x100)
  }

  ghost predicate Disjoint(lib: Library, records: seq<Record>) {
    forall i, j, x :: 0 <= i < j < |records| && records[i].kind == records[j].kind ==>
      !(Covers(lib, records[i].kind, records[i], x) && Covers(lib, records[j].kind, records[j], x))
  }

  // ----- the scan -----

  lemma NotBoth(lib: Library, records: seq<Record>, kind: RecordType, i: nat, j: nat, x: nat)
    requires Disjoint(lib, records) && i < |records| && j < |records| && i != j
    ensures !(Covers(lib, kind, records[i], x) && Covers(lib, kind, records[j], x))
  {
  }

  lemma {:induction false} ScanFinds(lib: Library, records: seq<Record>, kind: RecordType, x: nat, i: nat)
    requires i < |records| && Covers(lib, kind, records[i], x) && Disjoint(lib, records)
    ensures Scan(lib, records, kind, x) == Some(HitOfRecord(records[i]))
    decreases |records|
  {
    if i > 0 {
      NotBoth(lib, records, kind, 0, i, x);
      var rest := records[1..];
      forall a, b, y | 0 <= a < b < |rest| && rest[a].kind == rest[b].kind
        ensures !(Covers(lib, rest[a].kind, rest[a], y) && Covers(lib, rest[b].kind, rest[b], y))
      {
        assert rest[a] == records[a + 1] && rest[b] == records[b + 1];
      }
      ScanFinds(lib, rest, kind, x, i - 1);
    }
  }

  lemma {:induction false} ScanMisses(lib: Library, records: seq<Record>, kind: RecordType, x: nat)
    requires forall i :: 0 <= i < |records| ==> !Covers(lib, kind, records[i], x)
    ensures Scan(lib, records, kind, x) == None
    decreases |records|
  {
    if records != [] {
      forall i | 0 <= i < |records| - 1
        ensures !Covers(lib, kind, records[1..][i], x)
      {
        assert records[1..][i] == records[i + 1];
      }
      ScanMisses(lib, records[1..], kind, x);
    }
  }

  // ----- rows against spans -----

  /** The stored row has the record's true bounds: nothing wrapped. */
  lemma Row32Bounds(lib: Library, kind: RecordType, r: Record)
    requires WellFormed(lib, r) && !kind.TypeIPv6?
    ensures var row := Row32(lib, kind, r);
            if r.kind == kind && SpanOf(lib, r).Some? then
              var (first, last) := SpanOf(lib, r).value;
              first <= last < POW32 && row == Some(Range32(first, last, TagOf(r)))
            else row.None?
  {
    hide V4ToU32, Value, AllDigits, RegistryFromString;
    if r.kind == kind && SpanOf(lib, r).Some? {
      var (first, last) := SpanOf(lib, r).value;
      Wrap32Small(first);
      End32Exact(first, r.value);
      hide End32, Wrap32;
    }
  }

  lemma TagAnswers(r: Record)
    requires |r.cc| == 2 && 0 < r.cc[0] as int < 0x100 && r.cc[1] as int < 0x100
    ensures TagOf(r).cc0 != 0 && HitOf(TagOf(r)) == HitOfRecord(r)
  {
    RegistrySurvives(r.registry);
    hide RegistryName, RegistryFromString;
    assert HitOf(TagOf(r)).cc == r.cc;
  }

  lemma Row32IsSpan(lib: Library, kind: RecordType, r: Record, u: u32)
    requires WellFormed(lib, r) && !kind.TypeIPv6?
    ensures var row := Row32(lib, kind, r);
            && (row.Some? ==> row.value.start <= row.value.end && row.value.tag.cc0 != 0)
            && (row.Some? ==> HitOf(row.value.tag) == HitOfRecord(r))
            && (Covers(lib, kind, r, u) <==> row.Some? && Contains32(row.value, u))
  {
    Row32Bounds(lib, kind, r);
    hide Row32, HitOf, HitOfRecord, TagOf;
    if r.kind == kind && SpanOf(lib, r).Some? {
      TagAnswers(r);
      hide SpanOf;
    }
  }

  lemma Row128IsSpan(lib: Library, r: Record, hi: u64, lo: u64)
    requires WellFormed(lib, r)
    ensures var row := Row128(lib, r);
            && (row.Some? ==> Num128(row.value.startHi, row.value.startLo) <= Num128(row.value.endHi, row.value.endLo))
            && (row.Some? ==> row.value.tag.cc0 != 0)
            && (row.Some? ==> HitOf(row.value.tag) == HitOfRecord(r))
            && (Covers(lib, TypeIPv6, r, Num128(hi, lo)) <==> row.Some? && Contains128(row.value, hi, lo))
  {
    hide HitOf, HitOfRecord, TagOf;
    if r.kind.TypeIPv6? && |r.cc| == 2 {
      var (h, l) := Start128(lib, r).value;
      PrefixEndIsBlockEnd(h, l, r.value);
      assert SpanOf(lib, r) == Some((Num128(h, l), BlockEnd(Num128(h, l), 128 - r.value)));
      TagAnswers(r);
      hide Num128, PrefixEnd128;
    }
  }

  lemma SortingMembers<T>(f: Record -> Option<T>, records: seq<Record>, rows: seq<T>, key: T -> int, t: T)
    requires IsSorting(rows, Collect(f, records), key)
    ensures t in rows <==> exists i :: 0 <= i < |records| && f(records[i]) == Some(t)
  {
    CollectMembers(f, records, t);
    assert t in rows <==> t in multiset(rows);
    assert t in Collect(f, records) <==> t in multiset(Collect(f, records));
  }

  // ----- one table -----

  lemma Table32Sorted(lib: Library, kind: RecordType, records: seq<Record>, rows: seq<Range32>)
    requires !kind.TypeIPv6? && Disjoint(lib, records) && forall r <- records :: WellFormed(lib, r)
    requires IsSorting(rows, Collect(r => Row32(lib, kind, r), records), (r: Range32) => r.start)
    ensures Sorted32(rows)
  {
    var key := (r: Range32) => r.start;
    forall a, b | 0 <= a < b < |rows|
      ensures rows[a].start <= rows[b].start && rows[a].end <= rows[b].end
    {
      var f := r => Row32(lib, kind, r);
      assert key(rows[a]) <= key(rows[b]);
      SortingMembers(f, records, rows, key, rows[a]);
      SortingMembers(f, records, rows, key, rows[b]);
      var i :| 0 <= i < |records| && f(records[i]) == Some(rows[a]);
      var j :| 0 <= j < |records| && f(records[j]) == Some(rows[b]);
      if rows[a] != rows[b] {
        Row32IsSpan(lib, kind, records[i], rows[b].start);
        Row32IsSpan(lib, kind, records[j], rows[b].start);
        NotBoth(lib, records, kind, i, j, rows[b].start);
      }
    }
  }

  lemma Table32Answers(lib: Library, kind: RecordType, records: seq<Record>, rows: seq<Range32>, u: u32)
    requires !kind.TypeIPv6? && Disjoint(lib, records) && forall r <- records :: WellFormed(lib, r)
    requires IsSorting(rows, Collect(r => Row32(lib, kind, r), records), (r: Range32) => r.start)
    ensures Answer(Find32(rows, u)) == Scan(lib, records, kind, u)
  {
    var f := r => Row32(lib, kind, r);
    var key := (r: Range32) => r.start;
    Table32Sorted(lib, kind, records, rows);
    Find32Correct(rows, u);
    if Find32(rows, u).Some? {
      var t :| t in rows && Contains32(t, u) && t.tag == Find32(rows, u).value;
      SortingMembers(f, records, rows, key, t);
      var i :| 0 <= i < |records| && f(records[i]) == Some(t);
      Row32IsSpan(lib, kind, records[i], u);
      ScanFinds(lib, records, kind, u, i);
    } else {
      forall i | 0 <= i < |records|
        ensures !Covers(lib, kind, records[i], u)
      {
        Row32IsSpan(lib, kind, records[i], u);
        if f(records[i]).Some? {
          SortingMembers(f, records, rows, key, f(records[i]).value);
        }
      }
      ScanMisses(lib, records, kind, u);
    }
  }

  lemma Table128Sorted(lib: Library, records: seq<Record>, rows: seq<Range128>)
    requires Disjoint(lib, records) && forall r <- records :: WellFormed(lib, r)
    requires IsSorting(rows, Collect(r => Row128(lib, r), records), (r: Range128) => Num128(r.startHi, r.startLo))
    ensures Sorted128(rows)
  {
    hide Num128, Disjoint, WellFormed, Row128, Collect;
    var key := (r: Range128) => Num128(r.startHi, r.startLo);
    forall a, b | 0 <= a < b < |rows|
      ensures key(rows[a]) <= key(rows[b])
      ensures Num128(rows[a].endHi, rows[a].endLo) <= Num128(rows[b].endHi, rows[b].endLo)
    {
      var f := r => Row128(lib, r);
      SortingMembers(f, records, rows, key, rows[a]);
      SortingMembers(f, records, rows, key, rows[b]);
      var i :| 0 <= i < |records| && f(records[i]) == Some(rows[a]);
      var j :| 0 <= j < |records| && f(records[j]) == Some(rows[b]);
      if rows[a] != rows[b] {
        Row128IsSpan(lib, records[i], rows[b].startHi, rows[b].startLo);
        Row128IsSpan(lib, records[j], rows[b].startHi, rows[b].startLo);
        NotBoth(lib, records, TypeIPv6, i, j, key(rows[b]));
      }
    }
  }

  lemma Table128Answers(lib: Library, records: seq<Record>, rows: seq<Range128>, hi: u64, lo: u64)
    requires Disjoint(lib, records) && forall r <- records :: WellFormed(lib, r)
    requires IsSorting(rows, Collect(r => Row128(lib, r), records), (r: Range128) => Num128(r.startHi, r.startLo))
    ensures Answer(Find128(rows, hi, lo)) == Scan(lib, records, TypeIPv6, Num128(hi, lo))
  {
    hide Num128;
    var f := r => Row128(lib, r);
    var key := (r: Range128) => Num128(r.startHi, r.startLo);
    Table128Sorted(lib, records, rows);
    Find128Correct(rows, hi, lo);
    if Find128(rows, hi, lo).Some? {
      var t :| t in rows && Contains128(t, hi, lo) && t.tag == Find128(rows, hi, lo).value;
      SortingMembers(f, records, rows, key, t);
      var i :| 0 <= i < |records| && f(records[i]) == Some(t);
      Row128IsSpan(lib, records[i], hi, lo);
      ScanFinds(lib, records, TypeIPv6, Num128(hi, lo), i);
    } else {
      forall i | 0 <= i < |records|
        ensures !Covers(lib, TypeIPv6, records[i], Num128(hi, lo))
      {
        Row128IsSpan(lib, records[i], hi, lo);
        if f(records[i]).Some? {
          SortingMembers(f, records, rows, key, f(records[i]).value);
        }
      }
      ScanMisses(lib, records, TypeIPv6, Num128(hi, lo));
    }
  }

  // ----- the whole path -----

  /** On any records that do not overlap, looking an address or ASN up in the built index gives
      exactly what scanning the records gives. */
  lemma LookupIsScan(lib: Library, records: seq<Record>, db: DB, ip: Addr, asn: u32)
    requires IsBuilt(lib, records, db)
    requires Disjoint(lib, records) && forall r <- records :: WellFormed(lib, r)
    ensures LookupIP(db, ip) == ScanIP(lib, records, ip)
    ensures LookupASN(db, asn) == Scan(lib, records, TypeASN, asn)
  {
    hide IsSorting, Disjoint, WellFormed;
    Table32Answers(lib, TypeASN, records, db.asn, asn);
    match ip.Unmap()
    case Invalid =>
    case V4(_, _, _, _) =>
      Table32Answers(lib, TypeIPv4, records, db.v4, ip.Unmap().Num());
    case V6(hi, lo, _) =>
      Table128Answers(lib, records, db.v6, hi, lo);
  }

  /** From text to answers: the lines of a printed stream, built, saved and loaded back, answer every
      address and ASN as a scan of the printed records does. The build cannot fail on such a stream. */
  lemma PrintedStreamAnswers(
    lib: Library, items: seq<Parser.Item>, db: DB, sha: Hash, expected: Hash, rest: Bytes, ip: Addr, asn: u32)
    requires forall item <- items :: Parser.WellFormed(lib, item)
    requires |Parser.Versions(items)| <= 1
    requires var records := Parser.Records(false, items);
             Disjoint(lib, records) && forall r <- records :: WellFormed(lib, r)
    ensures var end := Parser.ConsumeAll(lib, false, r => Reject(lib, r), Parser.FRESH, Parser.PrintAll(lib, items));
            && end.err.None? && end.delivered == Parser.Records(false, items)
            && (IsBuilt(lib, end.delivered, db) && Countable(db) && (expected == NO_HASH || expected == sha) ==>
                  var loaded := Decode(Encode(db, sha) + rest, expected);
                  && loaded.Success?
                  && LookupIP(loaded.value, ip) == ScanIP(lib, end.delivered, ip)
                  && LookupASN(loaded.value, asn) == Scan(lib, end.delivered, TypeASN, asn))
  {
    var records := Parser.Records(false, items);
    Parser.ParsePrintedStream(lib, false, r => Reject(lib, r), Parser.FRESH, items);
    assert [] + records == records;
    hide Parser.ConsumeAll, Parser.Records, Disjoint, WellFormed, Encode, Decode, IsBuilt, LookupIP, LookupASN;
    if IsBuilt(lib, records, db) && Countable(db) {
      SnapshotRoundTrip(db, sha, rest, expected);
      LookupIsScan(lib, records, db, ip, asn);
    }
  }

  /** For counts below 2^32 the stored IPv4 range is exactly what its CIDR decomposition denotes. */
  lemma StoredRangeIsItsCidrs(u: u32, count: u32, ps: seq<Prefix>, x: u32)
    requires count >= 1 && u + count <= POW32
    requires Cidr.Spells(ps, Cidr.Greedy(u, count))
    ensures u <= x <= End32(u, count) <==> Cidr.Denotes(ps, x)
  {
    End32Exact(u, count);
    Cidr.DenotesWrappedRange(ps, u, count, x);
  }

  // ----- update-db, then open -----

  lemma SortingLength<T>(out: seq<T>, rows: seq<T>, key: T -> int)
    requires IsSorting(out, rows, key)
    ensures |out| == |rows|
  {
    assert |multiset(out)| == |out| && |multiset(rows)| == |rows|;
  }

  /** Each kind of record makes fewer than 2^32 rows. */
  ghost predicate FewRows(lib: Library, records: seq<Record>) {
    && |Collect(r => Row32(lib, TypeIPv4, r), records)| < POW32
    && |Collect(r => Row32(lib, TypeASN, r), records)| < POW32
    && |Collect(r => Row128(lib, r), records)| < POW32
  }

  /** The tables have as many rows as the records make. */
  lemma BuiltCounts(lib: Library, records: seq<Record>, db: DB)
    requires IsBuilt(lib, records, db)
    ensures |db.v4| == |Collect(r => Row32(lib, TypeIPv4, r), records)|
    ensures |db.asn| == |Collect(r => Row32(lib, TypeASN, r), records)|
    ensures |db.v6| == |Collect(r => Row128(lib, r), records)|
  {
    SortingLength(db.v4, Collect(r => Row32(lib, TypeIPv4, r), records), (r: Range32) => r.start);
    SortingLength(db.asn, Collect(r => Row32(lib, TypeASN, r), records), (r: Range32) => r.start);
    SortingLength(db.v6, Collect(r => Row128(lib, r), records), (r: Range128) => Num128(r.startHi, r.startLo));
  }

  /** What was built and saved loads as built from the same records if and only if the rows can be counted. */
  lemma LoadedIsBuilt(lib: Library, records: seq<Record>, db: DB)
    requires IsBuilt(lib, records, db)
    ensures var loaded := Decode(Encode(db, NO_HASH), NO_HASH);
            (loaded.Success? && IsBuilt(lib, records, loaded.value)) <==> FewRows(lib, records)
  {
    BuiltCounts(lib, records, db);
    RoundTripsIffCountable(db, NO_HASH);
    var loaded := Decode(Encode(db, NO_HASH), NO_HASH);
    hide IsBuilt, Encode, Decode, Collect;
    if loaded.Success? && IsBuilt(lib, records, loaded.value) {
      BuiltCounts(lib, records, loaded.value);
    }
  }

  /** Every answer of db is the linear scan's. */
  ghost predicate AnswersLikeScan(lib: Library, records: seq<Record>, db: DB) {
    && (forall ip :: LookupIP(db, ip) == ScanIP(lib, records, ip))
    && (forall asn: u32 :: LookupASN(db, asn) == Scan(lib, records, TypeASN, asn))
  }

  lemma BuiltAnswers(lib: Library, records: seq<Record>, db: DB)
    requires IsBuilt(lib, records, db)
    requires Disjoint(lib, records) && forall r <- records :: WellFormed(lib, r)
    ensures AnswersLikeScan(lib, records, db)
  {
    hide IsBuilt, Disjoint, WellFormed, LookupIP, LookupASN;
    forall ip: Addr
      ensures LookupIP(db, ip) == ScanIP(lib, records, ip)
    {
      LookupIsScan(lib, records, db, ip, 0);
    }
    forall asn: u32
      ensures LookupASN(db, asn) == Scan(lib, records, TypeASN, asn)
    {
      LookupIsScan(lib, records, db, Invalid, asn);
    }
  }

  /** Build the index, write the snapshot under the zero hash, and load what was written. The loaded
      database is built from the delivered records exactly when the stream is accepted and each kind of
      record makes fewer than 2^32 rows; on records that do not overlap it then answers like a scan. */
  method UpdateAndOpen(lib: Library, lines: seq<string>, scanErr: Option<string>)
    returns (res: Wrappers.Result<DB, string>)
    ensures var end := Parser.ConsumeAll(lib, false, r => Reject(lib, r), Parser.FRESH, lines);
            && (end.err.Some? || scanErr.Some? ==> res.Failure?)
            && (end.err.None? && scanErr.None? ==>
                  ((res.Success? && IsBuilt(lib, end.delivered, res.value)) <==> FewRows(lib, end.delivered)))
            && (res.Success? && IsBuilt(lib, end.delivered, res.value)
                && Disjoint(lib, end.delivered) && (forall r <- end.delivered :: WellFormed(lib, r)) ==>
                  AnswersLikeScan(lib, end.delivered, res.value))
  {
    hide Parser.ConsumeAll, Encode, Decode, IsBuilt, Countable, Disjoint, WellFormed, AnswersLikeScan, FewRows;
    var built := Build(lib, lines, scanErr);
    if built.Failure? {
      return Failure(built.error);
    }
    ghost var records := Parser.ConsumeAll(lib, false, r => Reject(lib, r), Parser.FRESH, lines).delivered;
    var db := built.value;
    var file := new SnapshotIO.Sink(SnapshotIO.Unlimited);  // a bytes.Buffer, which does not fail
    var ok := SnapshotIO.SaveSnapshot(db, NO_HASH, file);
    assert ok;
    var src := new SnapshotIO.Source(file.out);
    var loaded := SnapshotIO.LoadSnapshot(src, NO_HASH);
    LoadedIsBuilt(lib, records, db);
    if loaded.Failure? {
      return Failure("cache: parse snapshot");
    }
    if IsBuilt(lib, records, loaded.value) && Disjoint(lib, records) && forall r <- records :: WellFormed(lib, r) {
      BuiltAnswers(lib, records, loaded.value);
    }
    return Success(loaded.value);
  }
}
