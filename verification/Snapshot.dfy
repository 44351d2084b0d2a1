/** The RCHK binary snapshot: writer, reader and the format between them (internal/rir/serialize.go). */
module Snapshot {
  import opened Wrappers
  import opened Words
  import opened RirTypes

  type Bytes = seq<u8>

  // ----- little-endian numbers -----

  function LE(x: nat, n: nat): (b: Bytes)
    ensures |b| == n
  {
    if n == 0 then [] else [x % 0x100] + LE(x / 0x100, n - 1)
  }

  function FromLE(b: Bytes): nat {
    if b == [] then 0 else b[0] + 0x100 * FromLE(b[1..])
  }

  function Pow256(n: nat): (r: nat)
    ensures r >= 1
  {
    if n == 0 then 1 else 0x100 * Pow256(n - 1)
  }

  lemma {:induction false} FromLEBound(b: Bytes)
    ensures FromLE(b) < Pow256(|b|)
    decreases |b|
  {
    if b != [] {
      FromLEBound(b[1..]);
    }
  }

  lemma {:induction false} LERoundTrip(x: nat, n: nat)
    requires x < Pow256(n)
    ensures FromLE(LE(x, n)) == x
    decreases n
  {
    if n > 0 {
      LERoundTrip(x / 0x100, n - 1);
      assert LE(x, n)[1..] == LE(x / 0x100, n - 1);
    }
  }

  lemma Pow256Values()
    ensures Pow256(4) == POW32 && Pow256(8) == POW64
  {
    assert Pow256(2) == 0x1_0000;
    assert Pow256(3) == 0x100_0000;
    assert Pow256(6) == 0x1_0000_0000_0000;
    assert Pow256(7) == 0x100_0000_0000_0000;
  }

  function U32At(b: Bytes, i: nat): u32
    requires i + 4 <= |b|
  {
    FromLEBound(b[i..i + 4]);
    Pow256Values();
    FromLE(b[i..i + 4])
  }

  function U64At(b: Bytes, i: nat): u64
    requires i + 8 <= |b|
  {
    FromLEBound(b[i..i + 8]);
    Pow256Values();
    FromLE(b[i..i + 8])
  }

  lemma U32AtLE(b: Bytes, i: nat, x: u32)
    requires i + 4 <= |b| && b[i..i + 4] == LE(x, 4)
    ensures U32At(b, i) == x
  {
    Pow256Values();
    LERoundTrip(x, 4);
  }

  lemma U64AtLE(b: Bytes, i: nat, x: u64)
    requires i + 8 <= |b| && b[i..i + 8] == LE(x, 8)
    ensures U64At(b, i) == x
  {
    Pow256Values();
    LERoundTrip(x, 8);
  }

  // ----- rows -----

  function Zeros(n: nat): (b: Bytes)
    ensures |b| == n
  {
    if n == 0 then [] else [0] + Zeros(n - 1)
  }

  function TagBytes(t: Tag): Bytes {
    [t.cc0, t.cc1, t.registry, t.status] + LE(t.date, 4)
  }

  function ReadTag(b: Bytes, i: nat): Tag
    requires i + 8 <= |b|
  {
    Tag(b[i], b[i + 1], b[i + 2], b[i + 3], U32At(b, i + 4))
  }

  /** A fixed-width row format: width, writer, reader. */
  datatype RowFormat<!T> = RowFormat(size: nat, enc: T -> Bytes, dec: Bytes -> T)

  function AsnBytes(r: Range32): Bytes { LE(r.start, 4) + LE(r.end, 4) + TagBytes(r.tag) }

  function V4Bytes(r: Range32): Bytes { AsnBytes(r) + Zeros(8) }

  function V6Bytes(r: Range128): Bytes {
    LE(r.startHi, 8) + LE(r.startLo, 8) + LE(r.endHi, 8) + LE(r.endLo, 8) + TagBytes(r.tag) + Zeros(4)
  }

  function ReadRange32(b: Bytes): Range32 {
    if |b| >= 16 then Range32(U32At(b, 0), U32At(b, 4), ReadTag(b, 8)) else Range32(0, 0, Tag(0, 0, 0, 0, 0))
  }

  function ReadRange128(b: Bytes): Range128 {
    if |b| >= 40 then Range128(U64At(b, 0), U64At(b, 8), U64At(b, 16), U64At(b, 24), ReadTag(b, 32))
    else Range128(0, 0, 0, 0, Tag(0, 0, 0, 0, 0))
  }

  function V4Row(): RowFormat<Range32> { RowFormat(24, r => V4Bytes(r), b => ReadRange32(b)) }
  function V6Row(): RowFormat<Range128> { RowFormat(44, r => V6Bytes(r), b => ReadRange128(b)) }
  function AsnRow(): RowFormat<Range32> { RowFormat(16, r => AsnBytes(r), b => ReadRange32(b)) }

  /** Every row fills its width and is read back from it. */
  ghost predicate Faithful<T(!new)>(f: RowFormat<T>) {
    forall t: T :: |f.enc(t)| == f.size && f.dec(f.enc(t)) == t
  }

  lemma TagRoundTrip(b: Bytes, i: nat, t: Tag)
    requires i + 8 <= |b| && b[i..i + 8] == TagBytes(t)
    ensures ReadTag(b, i) == t
  {
    var s := b[i..i + 8];
    assert b[i + 4..i + 8] == s[4..] == LE(t.date, 4);
    U32AtLE(b, i + 4, t.date);
    assert s[0] == b[i] && s[1] == b[i + 1] && s[2] == b[i + 2] && s[3] == b[i + 3];
  }

  lemma Range32RoundTrip(r: Range32, pad: Bytes)
    ensures ReadRange32(AsnBytes(r) + pad) == r
  {
    var b := AsnBytes(r) + pad;
    assert b[0..4] == LE(r.start, 4);
    assert b[4..8] == LE(r.end, 4);
    assert b[8..16] == TagBytes(r.tag);
    U32AtLE(b, 0, r.start);
    U32AtLE(b, 4, r.end);
    TagRoundTrip(b, 8, r.tag);
  }

  lemma Range128RoundTrip(r: Range128)
    ensures ReadRange128(V6Bytes(r)) == r
  {
    var b := V6Bytes(r);
    assert b[0..8] == LE(r.startHi, 8);
    assert b[8..16] == LE(r.startLo, 8);
    assert b[16..24] == LE(r.endHi, 8);
    assert b[24..32] == LE(r.endLo, 8);
    assert b[32..40] == TagBytes(r.tag);
    U64AtLE(b, 0, r.startHi);
    U64AtLE(b, 8, r.startLo);
    U64AtLE(b, 16, r.endHi);
    U64AtLE(b, 24, r.endLo);
    TagRoundTrip(b, 32, r.tag);
  }

  lemma RowsFaithful()
    ensures Faithful(V4Row()) && Faithful(V6Row()) && Faithful(AsnRow())
  {
    forall r: Range32
      ensures ReadRange32(V4Bytes(r)) == r && ReadRange32(AsnBytes(r)) == r
    {
      Range32RoundTrip(r, Zeros(8));
      assert V4Bytes(r) == AsnBytes(r) + Zeros(8);
      Range32RoundTrip(r, []);
      assert AsnBytes(r) == AsnBytes(r) + [];
    }
    forall r: Range128
      ensures ReadRange128(V6Bytes(r)) == r
    {
      Range128RoundTrip(r);
    }
  }

  // ----- tables -----

  function EncodeRows<T>(f: RowFormat<T>, rows: seq<T>): Bytes {
    if rows == [] then [] else f.enc(rows[0]) + EncodeRows(f, rows[1..])
  }

  /** The row count is written as a uint32. */
  function EncodeTable<T>(f: RowFormat<T>, rows: seq<T>): Bytes {
    LE(Wrap32(|rows|), 4) + EncodeRows(f, rows)
  }

  /** n rows from the front of b, and what is left. */
  function DecodeRows<T>(f: RowFormat<T>, n: nat, b: Bytes): Option<(seq<T>, Bytes)>
    decreases n
  {
    if n == 0 then Some(([], b))
    else if |b| < f.size then None
    else
      match DecodeRows(f, n - 1, b[f.size..])
      case None => None
      case Some((rows, rest)) => Some(([f.dec(b[..f.size])] + rows, rest))
  }

  function DecodeTable<T>(f: RowFormat<T>, b: Bytes): Option<(seq<T>, Bytes)> {
    if |b| < 4 then None else DecodeRows(f, U32At(b, 0), b[4..])
  }

  lemma {:induction false} EncodedRowsLength<T(!new)>(f: RowFormat<T>, rows: seq<T>)
    requires Faithful(f)
    ensures |EncodeRows(f, rows)| == f.size * |rows|
    decreases |rows|
  {
    if rows != [] {
      EncodedRowsLength(f, rows[1..]);
    }
  }

  lemma {:induction false} RowsRoundTrip<T(!new)>(f: RowFormat<T>, rows: seq<T>, rest: Bytes)
    requires Faithful(f)
    ensures DecodeRows(f, |rows|, EncodeRows(f, rows) + rest) == Some((rows, rest))
    decreases |rows|
  {
    var b := EncodeRows(f, rows) + rest;
    if rows == [] {
      assert b == rest;
    } else {
      RowsRoundTrip(f, rows[1..], rest);
      assert b[f.size..] == EncodeRows(f, rows[1..]) + rest;
      assert b[..f.size] == f.enc(rows[0]);
      assert [rows[0]] + rows[1..] == rows;
    }
  }

  lemma TableRoundTrip<T(!new)>(f: RowFormat<T>, rows: seq<T>, rest: Bytes)
    requires Faithful(f) && |rows| < POW32
    ensures DecodeTable(f, EncodeTable(f, rows) + rest) == Some((rows, rest))
  {
    hide EncodeRows, DecodeRows, LE, Faithful, U32At;
    var b := EncodeTable(f, rows) + rest;
    Wrap32Small(|rows|);
    assert b[0..4] == LE(|rows|, 4);
    assert b[4..] == EncodeRows(f, rows) + rest;
    U32AtLE(b, 0, |rows|);
    RowsRoundTrip(f, rows, rest);
  }

  /** Rows read are as many as asked for, and account for every byte consumed. */
  lemma {:induction false} DecodedRowsUse<T>(f: RowFormat<T>, n: nat, b: Bytes)
    ensures DecodeRows(f, n, b).Some? ==>
              var (rows, rest) := DecodeRows(f, n, b).value; |rows| == n && |b| == f.size * n + |rest|
    decreases n
  {
    if n > 0 && |b| >= f.size {
      DecodedRowsUse(f, n - 1, b[f.size..]);
    }
  }

  /** The count that comes back is the row count modulo 2^32. */
  lemma DecodedTableCount<T>(f: RowFormat<T>, rows: seq<T>, rest: Bytes)
    ensures var d := DecodeTable(f, EncodeTable(f, rows) + rest);
            d.Some? ==> |d.value.0| == Wrap32(|rows|)
  {
    var b := EncodeTable(f, rows) + rest;
    assert b[0..4] == LE(Wrap32(|rows|), 4);
    U32AtLE(b, 0, Wrap32(|rows|));
    DecodedRowsUse(f, U32At(b, 0), b[4..]);
  }

  /** Bytes after the rows are not looked at. */
  lemma {:induction false} DecodeRowsExtends<T>(f: RowFormat<T>, n: nat, b: Bytes, more: Bytes)
    requires DecodeRows(f, n, b).Some?
    ensures var (rows, rest) := DecodeRows(f, n, b).value;
            DecodeRows(f, n, b + more) == Some((rows, rest + more))
    decreases n
  {
    if n > 0 {
      DecodeRowsExtends(f, n - 1, b[f.size..], more);
      assert (b + more)[f.size..] == b[f.size..] + more;
      assert (b + more)[..f.size] == b[..f.size];
    }
  }

  lemma DecodeTableExtends<T>(f: RowFormat<T>, b: Bytes, more: Bytes)
    requires DecodeTable(f, b).Some?
    ensures var (rows, rest) := DecodeTable(f, b).value;
            && DecodeTable(f, b + more) == Some((rows, rest + more))
            && |b| == 4 + f.size * |rows| + |rest|
  {
    assert (b + more)[0..4] == b[0..4];
    assert (b + more)[4..] == b[4..] + more;
    DecodedRowsUse(f, U32At(b, 0), b[4..]);
    DecodeRowsExtends(f, U32At(b, 0), b[4..], more);
  }

  // ----- the file -----

  type Hash = s: Bytes | |s| == 32 witness Zeros(32)

  const NO_HASH: Hash := Zeros(32)
  const MAGIC: Bytes := [0x52, 0x43, 0x48, 0x4b]
  const VERSION: u32 := 1
  const RESERVED: Bytes := Zeros(16)

  datatype LoadError = Truncated | BadMagic | BadVersion | Stale

  function HeaderBytes(sha: Hash): (b: Bytes)
    ensures |b| == 56
  {
    MAGIC + LE(VERSION, 4) + sha + RESERVED
  }

  /** The three tables, and what follows them. */
  function TablesBytes(db: DB, rest: Bytes): Bytes {
    EncodeTable(V4Row(), db.v4) + (EncodeTable(V6Row(), db.v6) + (EncodeTable(AsnRow(), db.asn) + rest))
  }

  function Encode(db: DB, sha: Hash): Bytes {
    HeaderBytes(sha) + EncodeTable(V4Row(), db.v4) + EncodeTable(V6Row(), db.v6) + EncodeTable(AsnRow(), db.asn)
  }

  /** The checks on the first 56 bytes, in the order they are read. */
  function CheckHeader(b: Bytes, expected: Hash): Option<LoadError> {
    if |b| < 4 then Some(Truncated)
    else if b[..4] != MAGIC then Some(BadMagic)
    else if |b| < 8 then Some(Truncated)
    else if U32At(b, 4) != VERSION then Some(BadVersion)
    else if |b| < 40 then Some(Truncated)
    else if expected != NO_HASH && b[8..40] != expected then Some(Stale)
    else if |b| < 56 then Some(Truncated)
    else None
  }

  function DecodeTables(b: Bytes): Option<(DB, Bytes)> {
    match DecodeTable(V4Row(), b)
    case None => None
    case Some((v4, b1)) =>
      match DecodeTable(V6Row(), b1)
      case None => None
      case Some((v6, b2)) =>
        match DecodeTable(AsnRow(), b2)
        case None => None
        case Some((asn, b3)) => Some((DB(v4, v6, asn), b3))
  }

  function Decode(b: Bytes, expected: Hash): Result<DB, LoadError> {
    var e := CheckHeader(b, expected);
    if e.Some? then Failure(e.value)
    else
      var d := DecodeTables(b[56..]);
      if d.None? then Failure(Truncated) else Success(d.value.0)
  }

  // ----- properties -----

  predicate Countable(db: DB) { |db.v4| < POW32 && |db.v6| < POW32 && |db.asn| < POW32 }

  lemma HeaderChecks(sha: Hash, rest: Bytes, expected: Hash)
    ensures CheckHeader(HeaderBytes(sha) + rest, expected)
         == if expected != NO_HASH && sha != expected then Some(Stale) else None
    ensures (HeaderBytes(sha) + rest)[56..] == rest
  {
    var b := HeaderBytes(sha) + rest;
    assert b[..4] == MAGIC;
    assert b[4..8] == LE(VERSION, 4);
    U32AtLE(b, 4, VERSION);
    assert b[8..40] == sha;
  }

  lemma TablesRoundTrip(db: DB, rest: Bytes)
    requires Countable(db)
    ensures DecodeTables(TablesBytes(db, rest)) == Some((db, rest))
  {
    hide EncodeTable, DecodeTable;
    RowsFaithful();
    TableRoundTrip(V4Row(), db.v4, EncodeTable(V6Row(), db.v6) + (EncodeTable(AsnRow(), db.asn) + rest));
    TableRoundTrip(V6Row(), db.v6, EncodeTable(AsnRow(), db.asn) + rest);
    TableRoundTrip(AsnRow(), db.asn, rest);
  }

  lemma EncodeLayout(db: DB, sha: Hash, rest: Bytes)
    ensures Encode(db, sha) + rest == HeaderBytes(sha) + TablesBytes(db, rest)
  {
  }

  /** A snapshot loads back as the same tables, whatever follows it, under the recorded hash or none;
      under any other hash it is stale. */
  lemma SnapshotRoundTrip(db: DB, sha: Hash, rest: Bytes, expected: Hash)
    requires Countable(db)
    ensures Decode(Encode(db, sha) + rest, expected)
         == if expected != NO_HASH && sha != expected then Failure(Stale) else Success(db)
  {
    hide HeaderBytes, TablesBytes, CheckHeader, DecodeTables, Encode;
    EncodeLayout(db, sha, rest);
    HeaderChecks(sha, TablesBytes(db, rest), expected);
    TablesRoundTrip(db, rest);
  }

  predicate SameCounts(a: DB, b: DB) { |a.v4| == |b.v4| && |a.v6| == |b.v6| && |a.asn| == |b.asn| }

  /** What loads instead, if anything does, has too few rows in some table. */
  lemma TooManyRows(db: DB)
    requires !Countable(db)
    ensures var d := DecodeTables(TablesBytes(db, [])); d.Some? ==> !SameCounts(d.value.0, db)
  {
    hide EncodeTable, DecodeTable;
    RowsFaithful();
    var t5 := EncodeTable(AsnRow(), db.asn) + [];
    var t6 := EncodeTable(V6Row(), db.v6) + t5;
    DecodedTableCount(V4Row(), db.v4, t6);
    if |db.v4| < POW32 {
      TableRoundTrip(V4Row(), db.v4, t6);
      DecodedTableCount(V6Row(), db.v6, t5);
      if |db.v6| < POW32 {
        TableRoundTrip(V6Row(), db.v6, t5);
        DecodedTableCount(AsnRow(), db.asn, []);
      }
    }
  }

  /** Loading inverts saving exactly for the databases whose row counts fit a uint32. */
  lemma RoundTripsIffCountable(db: DB, sha: Hash)
    ensures Decode(Encode(db, sha), sha) == Success(db) <==> Countable(db)
    ensures Decode(Encode(db, sha), sha).Success? ==>
              (SameCounts(Decode(Encode(db, sha), sha).value, db) <==> Countable(db))
  {
    EncodeLayout(db, sha, []);
    assert Encode(db, sha) == Encode(db, sha) + [];
    if Countable(db) {
      SnapshotRoundTrip(db, sha, [], sha);
    } else {
      HeaderChecks(sha, TablesBytes(db, []), sha);
      TooManyRows(db);
    }
  }

  function EncodedLength(db: DB): nat { 68 + 24 * |db.v4| + 44 * |db.v6| + 16 * |db.asn| }

  lemma SnapshotLength(db: DB, sha: Hash)
    ensures |Encode(db, sha)| == EncodedLength(db)
  {
    RowsFaithful();
    EncodedRowsLength(V4Row(), db.v4);
    EncodedRowsLength(V6Row(), db.v6);
    EncodedRowsLength(AsnRow(), db.asn);
  }

  lemma HeaderExtends(b: Bytes, more: Bytes, expected: Hash)
    ensures CheckHeader(b, expected).None? ==> |b| >= 56 && CheckHeader(b + more, expected).None?
  {
    if |b| >= 56 {
      var c := b + more;
      assert c[..4] == b[..4] && c[4..8] == b[4..8] && c[8..40] == b[8..40];
      assert U32At(c, 4) == U32At(b, 4);
      hide U32At;
    }
  }

  lemma DecodeTablesExtends(b: Bytes, more: Bytes)
    requires DecodeTables(b).Some?
    ensures var (db, rest) := DecodeTables(b).value;
            && DecodeTables(b + more) == Some((db, rest + more))
            && 56 + |b| >= EncodedLength(db)
  {
    hide DecodeTable;
    var (v4, b1) := DecodeTable(V4Row(), b).value;
    var (v6, b2) := DecodeTable(V6Row(), b1).value;
    DecodeTableExtends(V4Row(), b, more);
    DecodeTableExtends(V6Row(), b1, more);
    DecodeTableExtends(AsnRow(), b2, more);
  }

  /** A load that succeeds has read as many bytes as its result takes, and would give the
      same result with more bytes behind them. */
  lemma DecodeExtends(b: Bytes, more: Bytes, expected: Hash)
    requires Decode(b, expected).Success?
    ensures Decode(b + more, expected) == Decode(b, expected)
    ensures |b| >= EncodedLength(Decode(b, expected).value)
  {
    hide CheckHeader, DecodeTables;
    HeaderExtends(b, more, expected);
    DecodeTablesExtends(b[56..], more);
    assert (b + more)[56..] == b[56..] + more;
  }

  /** No strict prefix of a snapshot loads, under any expected hash. */
  lemma TruncationIsRejected(db: DB, sha: Hash, n: nat, expected: Hash)
    requires Countable(db) && n < |Encode(db, sha)|
    ensures Decode(Encode(db, sha)[..n], expected).Failure?
  {
    hide Encode, Decode;
    var full := Encode(db, sha);
    if Decode(full[..n], expected).Success? {
      assert full[..n] + full[n..] == full == full + [];
      DecodeExtends(full[..n], full[n..], expected);
      SnapshotRoundTrip(db, sha, [], expected);
      SnapshotLength(db, sha);
      assert false;
    }
  }

  // ----- the layout, byte by byte -----

  lemma ShrByte(x: nat)
    ensures Shr(x, 8) == x / 0x100
  {
    assert Shr(x, 4) == x / 0x10;
    assert Shr(x / 0x10, 4) == x / 0x10 / 0x10;
    ShrTwice(x, 4, 4);
  }

  /** Little-endian: the k-th byte is the number shifted right by 8k bits. */
  lemma {:induction false} LEByte(x: nat, n: nat, k: nat)
    requires k < n
    ensures LE(x, n)[k] == Shr(x, 8 * k) % 0x100
    decreases k
  {
    if k > 0 {
      LEByte(x / 0x100, n - 1, k - 1);
      assert LE(x, n)[k] == LE(x / 0x100, n - 1)[k - 1];
      hide Shr, LE;
      ShrByte(x);
      ShrTwice(x, 8, 8 * (k - 1));
    }
  }

  lemma EightZeros()
    ensures Zeros(4) == [0, 0, 0, 0] && Zeros(8) == [0, 0, 0, 0, 0, 0, 0, 0]
  {
    assert Zeros(4) == [0] + ([0] + ([0] + ([0] + Zeros(0))));
    assert Zeros(8) == [0] + ([0] + ([0] + ([0] + Zeros(4))));
  }

  /** Where each field of an IPv4 row is; an ASN row is the same without the padding. */
  lemma Layout32(r: Range32)
    ensures var b := V4Bytes(r);
            && |b| == 24 && b[..16] == AsnBytes(r)
            && b[0..4] == LE(r.start, 4) && b[4..8] == LE(r.end, 4)
            && b[8] == r.tag.cc0 && b[9] == r.tag.cc1 && b[10] == r.tag.registry && b[11] == r.tag.status
            && b[12..16] == LE(r.tag.date, 4) && b[16..24] == [0, 0, 0, 0, 0, 0, 0, 0]
  {
    EightZeros();
    hide LE, Zeros;
  }

  /** Where each field of an IPv6 row is. */
  lemma Layout128(s: Range128)
    ensures var b := V6Bytes(s);
            && |b| == 44 && b[0..8] == LE(s.startHi, 8) && b[8..16] == LE(s.startLo, 8)
            && b[16..24] == LE(s.endHi, 8) && b[24..32] == LE(s.endLo, 8)
            && b[32] == s.tag.cc0 && b[33] == s.tag.cc1 && b[34] == s.tag.registry && b[35] == s.tag.status
            && b[36..40] == LE(s.tag.date, 4) && b[40..44] == [0, 0, 0, 0]
  {
    EightZeros();
    hide LE, Zeros;
  }

  lemma OneLE()
    ensures LE(1, 4) == [1, 0, 0, 0]
  {
    assert LE(0, 3) == [0] + ([0] + ([0] + LE(0, 0)));
  }

  /** "RCHK", version 1, the hash, sixteen zeros, and then the tables, each with its row count before it. */
  lemma FileLayout(db: DB, sha: Hash)
    ensures var b := Encode(db, sha);
            && |b| >= 60 && b[0..4] == [0x52, 0x43, 0x48, 0x4b] && b[4..8] == [1, 0, 0, 0]
            && b[8..40] == sha && b[40..56] == Zeros(16)
            && b[56..60] == LE(Wrap32(|db.v4|), 4)
            && b[60..] == EncodeRows(V4Row(), db.v4) + EncodeTable(V6Row(), db.v6) + EncodeTable(AsnRow(), db.asn)
  {
    OneLE();
    hide LE, Zeros, EncodeRows, V4Row, V6Row, AsnRow;
  }

  lemma VersionBytes(b: Bytes)
    requires |b| >= 8
    ensures U32At(b, 4) == 1 <==> b[4..8] == [1, 0, 0, 0]
  {
    var v := b[4..8];
    assert v == [v[0], v[1], v[2], v[3]];
    assert FromLE(v[1..]) == v[1] + 0x100 * FromLE(v[2..]) by { assert v[1..][1..] == v[2..]; }
    assert FromLE(v[2..]) == v[2] + 0x100 * FromLE(v[3..]) by { assert v[2..][1..] == v[3..]; }
    assert FromLE(v[3..]) == v[3] by { assert v[3..][1..] == []; }
  }

  /** The outcomes of a load, from the bytes alone, in the order of the checks; anything else is truncated
      or loads. */
  lemma LoadOutcomes(b: Bytes, expected: Hash)
    ensures var r, rchk, one := Decode(b, expected), [0x52, 0x43, 0x48, 0x4b], [1, 0, 0, 0];
            && (r == Failure(BadMagic) <==> |b| >= 4 && b[0..4] != rchk)
            && (r == Failure(BadVersion) <==> |b| >= 8 && b[0..4] == rchk && b[4..8] != one)
            && (r == Failure(Stale) <==>
                  && |b| >= 40 && b[0..4] == rchk && b[4..8] == one
                  && expected != Zeros(32) && b[8..40] != expected)
            && (r.Success? ==> |b| >= 68)
  {
    if |b| >= 8 {
      VersionBytes(b);
    }
    hide U32At, DecodeTables, Zeros;
    if Decode(b, expected).Success? {
      DecodeExtends(b, [], expected);
    }
  }
}
