/** The snapshot writer and reader as they run: a reused row buffer, a byte stream,
    and row arrays filled in place (internal/rir/serialize.go). */
module SnapshotIO {
  import opened Wrappers
  import opened Words
  import opened RirTypes
  import opened Sequences
  import opened Snapshot

  /** How many bytes the writer below takes before it fails. */
  datatype Limit = Unlimited | AtMost(size: nat)

  /** The size of the buffer of a bufio.Writer. */
  const BUFFER: nat := 4096

  /** A bufio.Writer and the writer below it, which holds out. An error is found when the buffer is
      emptied, and stays. taken is all that was handed over. */
  class Sink {
    const limit: Limit
    var out: Bytes
    var buffered: Bytes
    var failed: bool
    ghost var taken: Bytes

    predicate Fits(n: nat) { limit.AtMost? ==> n <= limit.size }

    /** Nothing is lost before a failure; a failure leaves what fits of more than fits. */
    ghost predicate Valid()
      reads this
    {
      if failed then limit.AtMost? && |out| == limit.size && |out| < |taken| && out <= taken
      else Fits(|out|) && out + buffered == taken
    }

    ghost predicate New()
      reads this
    {
      out == [] && buffered == [] && taken == [] && !failed
    }

    constructor (limit: Limit)
      ensures this.limit == limit && Valid() && New()
    {
      this.limit := limit;
      out, buffered, taken, failed := [], [], [], false;
    }

    /** Hand the first n buffered bytes to the writer below, which takes what fits. */
    method Pass(n: nat)
      requires Valid() && !failed && n <= |buffered|
      modifies this
      ensures Valid() && taken == old(taken) && buffered == old(buffered)[n..]
    {
      var block := buffered[..n];
      assert taken == out + block + buffered[n..];
      if Fits(|out| + n) {
        out := out + block;
      } else {
        out := out + block[..limit.size - |out|];
        failed := true;
      }
      buffered := buffered[n..];
    }

    method Write(b: Bytes) returns (ok: bool)
      requires Valid()
      modifies this
      ensures Valid() && taken == old(taken) + b && ok == !failed && (old(failed) ==> failed)
    {
      assert !failed ==> out + (buffered + b) == (out + buffered) + b;
      taken := taken + b;
      buffered := buffered + b;
      while |buffered| > BUFFER && !failed
        invariant Valid() && taken == old(taken) + b && (old(failed) ==> failed)
        decreases |buffered|
      {
        Pass(BUFFER);
      }
      ok := !failed;
    }

    method Flush() returns (ok: bool)
      requires Valid()
      modifies this
      ensures Valid() && taken == old(taken) && ok == !failed && (old(failed) ==> failed)
      ensures ok ==> out == taken
    {
      if !failed {
        Pass(|buffered|);
      }
      ok := !failed;
    }
  }

  /** A finite stream; a read beyond its end fails. */
  class Source {
    var rest: Bytes

    constructor (b: Bytes)
      ensures rest == b
    {
      rest := b;
    }

    /** io.ReadFull into the whole buffer. */
    method ReadFull(buf: array<u8>) returns (ok: bool)
      modifies this, buf
      ensures ok <==> |old(rest)| >= buf.Length
      ensures ok ==> buf[..] == old(rest)[..buf.Length] && rest == old(rest)[buf.Length..]
    {
      if |rest| < buf.Length {
        rest := [];
        return false;
      }
      for i := 0 to buf.Length
        invariant rest == old(rest) && |rest| >= buf.Length
        invariant forall j :: 0 <= j < i ==> buf[j] == rest[j]
      {
        buf[i] := rest[i];
      }
      rest := rest[buf.Length..];
      return true;
    }

    method ReadUint32() returns (n: Option<u32>)
      modifies this
      ensures n.Some? <==> |old(rest)| >= 4
      ensures n.Some? ==> n.value == U32At(old(rest), 0) && rest == old(rest)[4..]
    {
      if |rest| < 4 {
        rest := [];
        return None;
      }
      n := Some(U32At(rest, 0));
      rest := rest[4..];
    }
  }

  /** Store the n low bytes of x from position i on, least significant first. */
  method PutUint(buf: array<u8>, i: nat, x: nat, n: nat)
    requires i + n <= buf.Length
    modifies buf
    ensures buf[i..i + n] == LE(x, n)
    ensures buf[..i] == old(buf[..i]) && buf[i + n..] == old(buf[i + n..])
  {
    var y := x;
    ghost var all := LE(x, n);
    for k := 0 to n
      invariant buf[i..i + k] + LE(y, n - k) == all
      invariant buf[..i] == old(buf[..i]) && buf[i + n..] == old(buf[i + n..])
    {
      ghost var written := buf[i..i + k];
      buf[i + k] := y % 0x100;
      assert buf[i..i + k + 1] == written + [y % 0x100];
      y := y / 0x100;
    }
  }

  method PutTag(buf: array<u8>, i: nat, t: Tag)
    requires i + 8 <= buf.Length
    modifies buf
    ensures buf[i..i + 8] == TagBytes(t)
    ensures buf[..i] == old(buf[..i]) && buf[i + 8..] == old(buf[i + 8..])
  {
    ghost var front := buf[..i + 4];
    PutUint(buf, i + 4, t.date, 4);
    assert buf[..i] == front[..i];
    buf[i], buf[i + 1], buf[i + 2], buf[i + 3] := t.cc0, t.cc1, t.registry, t.status;
    assert buf[..i] == front[..i];
    assert buf[i..i + 8] == [t.cc0, t.cc1, t.registry, t.status] + buf[i + 4..i + 8];
  }

  method PutRange32(buf: array<u8>, r: Range32)
    requires buf.Length >= 16
    modifies buf
    ensures buf[..16] == AsnBytes(r) && buf[16..] == old(buf[16..])
  {
    PutUint(buf, 0, r.start, 4);
    PutUint(buf, 4, r.end, 4);
    assert buf[..4] == LE(r.start, 4);
    PutTag(buf, 8, r.tag);
    assert buf[..8] == LE(r.start, 4) + LE(r.end, 4);
    assert buf[..16] == buf[..8] + buf[8..16];
  }

  lemma {:induction false} ZerosAre(n: nat)
    ensures forall j :: 0 <= j < n ==> Zeros(n)[j] == 0
  {
    if n > 0 {
      ZerosAre(n - 1);
    }
  }

  method ZeroFrom(buf: array<u8>, from: nat)
    requires from <= buf.Length
    modifies buf
    ensures buf[from..] == Zeros(buf.Length - from) && buf[..from] == old(buf[..from])
  {
    for i := from to buf.Length
      invariant buf[..from] == old(buf[..from])
      invariant forall j :: from <= j < i ==> buf[j] == 0
    {
      buf[i] := 0;
    }
    ZerosAre(buf.Length - from);
  }

  // ----- writeV4, writeV6, writeASN -----

  /** All of b was handed over, or after an error a part of it from the front. */
  ghost predicate Took(before: Bytes, b: Bytes, after: Bytes, ok: bool) {
    if ok then after == before + b else after <= before + b
  }

  lemma EncodeNext<T>(f: RowFormat<T>, rows: seq<T>, i: nat)
    requires i < |rows|
    ensures EncodeRows(f, rows[i..]) == f.enc(rows[i]) + EncodeRows(f, rows[i + 1..])
  {
  }

  lemma TableEnds<T>(f: RowFormat<T>, rows: seq<T>, taken: Bytes)
    ensures taken + EncodeRows(f, rows[|rows|..]) == taken
  {
  }

  /** The count has been handed over, and the rows are to come. */
  lemma TookMore(before: Bytes, a: Bytes, b: Bytes, taken: Bytes)
    requires taken == before + a
    ensures taken + b == before + (a + b) && taken <= before + (a + b)
  {
    SeqAssoc(before, a, b);
  }

  lemma TookRow(start: Bytes, table: Bytes, before: Bytes, row: Bytes, rest: Bytes)
    requires before + (row + rest) == start + table
    ensures (before + row) + rest == start + table && before + row <= start + table
  {
    SeqAssoc(before, row, rest);
  }

  method FillV4(buf: array<u8>, r: Range32)
    requires buf.Length == 24
    modifies buf
    ensures buf[..] == V4Bytes(r)
  {
    PutRange32(buf, r);
    ZeroFrom(buf, 16);
    assert buf[..] == buf[..16] + buf[16..];
  }

  method WriteV4(w: Sink, rows: seq<Range32>) returns (ok: bool)
    requires w.Valid()
    modifies w
    ensures w.Valid() && ok == !w.failed && (old(w.failed) ==> w.failed)
    ensures Took(old(w.taken), EncodeTable(V4Row(), rows), w.taken, ok)
  {
    hide EncodeRows, LE, V4Bytes, Sink.Valid;
    ghost var table := EncodeTable(V4Row(), rows);
    ok := w.Write(LE(Wrap32(|rows|), 4));
    TookMore(old(w.taken), LE(Wrap32(|rows|), 4), EncodeRows(V4Row(), rows), w.taken);
    if !ok {
      return;
    }
    var buf := new u8[24];
    assert rows[0..] == rows;
    for i := 0 to |rows|
      invariant w.Valid() && !w.failed && ok
      invariant w.taken + EncodeRows(V4Row(), rows[i..]) == old(w.taken) + table
    {
      ghost var before := w.taken;
      FillV4(buf, rows[i]);
      EncodeNext(V4Row(), rows, i);
      ok := w.Write(buf[..]);
      TookRow(old(w.taken), table, before, V4Bytes(rows[i]), EncodeRows(V4Row(), rows[i + 1..]));
      if !ok {
        return;
      }
    }
    TableEnds(V4Row(), rows, w.taken);
  }

  method FillV6(buf: array<u8>, r: Range128)
    requires buf.Length == 44
    modifies buf
    ensures buf[..] == V6Bytes(r)
  {
    hide LE, TagBytes, Zeros;
    PutUint(buf, 0, r.startHi, 8);
    PutUint(buf, 8, r.startLo, 8);
    assert buf[..16] == LE(r.startHi, 8) + LE(r.startLo, 8);
    PutUint(buf, 16, r.endHi, 8);
    assert buf[..24] == LE(r.startHi, 8) + LE(r.startLo, 8) + LE(r.endHi, 8);
    PutUint(buf, 24, r.endLo, 8);
    assert buf[..32] == LE(r.startHi, 8) + LE(r.startLo, 8) + LE(r.endHi, 8) + LE(r.endLo, 8);
    PutTag(buf, 32, r.tag);
    assert buf[..40] == buf[..32] + buf[32..40];
    ZeroFrom(buf, 40);
    assert buf[..] == buf[..40] + buf[40..];
  }

  method WriteV6(w: Sink, rows: seq<Range128>) returns (ok: bool)
    requires w.Valid()
    modifies w
    ensures w.Valid() && ok == !w.failed && (old(w.failed) ==> w.failed)
    ensures Took(old(w.taken), EncodeTable(V6Row(), rows), w.taken, ok)
  {
    hide EncodeRows, LE, V6Bytes, Sink.Valid;
    ghost var table := EncodeTable(V6Row(), rows);
    ok := w.Write(LE(Wrap32(|rows|), 4));
    TookMore(old(w.taken), LE(Wrap32(|rows|), 4), EncodeRows(V6Row(), rows), w.taken);
    if !ok {
      return;
    }
    var buf := new u8[44];
    assert rows[0..] == rows;
    for i := 0 to |rows|
      invariant w.Valid() && !w.failed && ok
      invariant w.taken + EncodeRows(V6Row(), rows[i..]) == old(w.taken) + table
    {
      ghost var before := w.taken;
      FillV6(buf, rows[i]);
      EncodeNext(V6Row(), rows, i);
      ok := w.Write(buf[..]);
      TookRow(old(w.taken), table, before, V6Bytes(rows[i]), EncodeRows(V6Row(), rows[i + 1..]));
      if !ok {
        return;
      }
    }
    TableEnds(V6Row(), rows, w.taken);
  }

  method FillASN(buf: array<u8>, r: Range32)
    requires buf.Length == 16
    modifies buf
    ensures buf[..] == AsnBytes(r)
  {
    PutRange32(buf, r);
    assert buf[..] == buf[..16];
  }

  method WriteASN(w: Sink, rows: seq<Range32>) returns (ok: bool)
    requires w.Valid()
    modifies w
    ensures w.Valid() && ok == !w.failed && (old(w.failed) ==> w.failed)
    ensures Took(old(w.taken), EncodeTable(AsnRow(), rows), w.taken, ok)
  {
    hide EncodeRows, LE, AsnBytes, Sink.Valid;
    ghost var table := EncodeTable(AsnRow(), rows);
    ok := w.Write(LE(Wrap32(|rows|), 4));
    TookMore(old(w.taken), LE(Wrap32(|rows|), 4), EncodeRows(AsnRow(), rows), w.taken);
    if !ok {
      return;
    }
    var buf := new u8[16];
    assert rows[0..] == rows;
    for i := 0 to |rows|
      invariant w.Valid() && !w.failed && ok
      invariant w.taken + EncodeRows(AsnRow(), rows[i..]) == old(w.taken) + table
    {
      ghost var before := w.taken;
      FillASN(buf, rows[i]);
      EncodeNext(AsnRow(), rows, i);
      ok := w.Write(buf[..]);
      TookRow(old(w.taken), table, before, AsnBytes(rows[i]), EncodeRows(AsnRow(), rows[i + 1..]));
      if !ok {
        return;
      }
    }
    TableEnds(AsnRow(), rows, w.taken);
  }

  /** magic, version, hash, reserved. */
  method WriteHeader(w: Sink, rawSHA: Hash) returns (ok: bool)
    requires w.Valid()
    modifies w
    ensures w.Valid() && ok == !w.failed && (old(w.failed) ==> w.failed)
    ensures Took(old(w.taken), HeaderBytes(rawSHA), w.taken, ok)
  {
    hide LE, Zeros, Sink.Valid;
    ok := w.Write(MAGIC);
    if !ok {
      return;
    }
    ok := w.Write(LE(VERSION, 4));
    if !ok {
      return;
    }
    ok := w.Write(rawSHA);
    if !ok {
      return;
    }
    ok := w.Write(RESERVED);
    assert w.taken == old(w.taken) + HeaderBytes(rawSHA);
  }

  method WriteAll(db: DB, rawSHA: Hash, w: Sink) returns (ok: bool)
    requires w.Valid()
    modifies w
    ensures w.Valid() && ok == !w.failed && (old(w.failed) ==> w.failed)
    ensures Took(old(w.taken), Encode(db, rawSHA), w.taken, ok)
  {
    hide EncodeTable, HeaderBytes, Sink.Valid;
    ghost var v4, v6, asn := EncodeTable(V4Row(), db.v4), EncodeTable(V6Row(), db.v6), EncodeTable(AsnRow(), db.asn);
    ok := WriteHeader(w, rawSHA);
    if !ok {
      return;
    }
    ok := WriteV4(w, db.v4);
    if !ok {
      return;
    }
    ok := WriteV6(w, db.v6);
    if !ok {
      return;
    }
    ok := WriteASN(w, db.asn);
  }

  /** Into a new bufio.Writer: the whole snapshot arrives, exactly when the writer below takes that much;
      otherwise what fits of it does, which is no snapshot under any hash. */
  method SaveSnapshot(db: DB, rawSHA: Hash, w: Sink) returns (ok: bool)
    requires w.Valid() && w.New()
    modifies w
    ensures ok <==> w.Fits(|Encode(db, rawSHA)|)
    ensures ok ==> w.out == Encode(db, rawSHA)
    ensures !ok ==> w.out == Encode(db, rawSHA)[..w.limit.size]
    ensures !ok && Countable(db) ==> forall expected :: Decode(w.out, expected).Failure?
  {
    hide EncodeTable, HeaderBytes, Decode, Countable, Encode;
    ok := WriteAll(db, rawSHA, w);
    EmptyUnit(Encode(db, rawSHA));
    if ok {
      ok := w.Flush();
    }
    ghost var full := Encode(db, rawSHA);
    if !ok && Countable(db) {
      assert w.out == full[..w.limit.size];
      forall expected
        ensures Decode(w.out, expected).Failure?
      {
        TruncationIsRejected(db, rawSHA, w.limit.size, expected);
      }
    }
  }

  // ----- readV4, readV6, readASN: one reader, three row formats -----

  function Behind<T>(done: seq<T>, d: Option<(seq<T>, Bytes)>): Option<(seq<T>, Bytes)> {
    match d
    case None => None
    case Some((rows, rest)) => Some((done + rows, rest))
  }

  lemma BehindNone<T>(d: Option<(seq<T>, Bytes)>)
    ensures Behind([], d) == d
  {
    if d.Some? {
      EmptyUnit(d.value.0);
    }
  }

  lemma BehindAll<T>(f: RowFormat<T>, done: seq<T>, b: Bytes)
    ensures Behind(done, DecodeRows(f, 0, b)) == Some((done, b))
  {
    EmptyUnit(done);
  }

  /** A row that is there goes behind the ones before it; one that is not fails the table. */
  lemma ReadNext<T>(f: RowFormat<T>, done: seq<T>, n: nat, b: Bytes)
    requires n > 0
    ensures var d := Behind(done, DecodeRows(f, n, b));
            if |b| < f.size then d.None?
            else d == Behind(done + [f.dec(b[..f.size])], DecodeRows(f, n - 1, b[f.size..]))
  {
    if |b| >= f.size {
      var d := DecodeRows(f, n - 1, b[f.size..]);
      if d.Some? {
        SeqAssoc(done, [f.dec(b[..f.size])], d.value.0);
      }
    }
  }

  method ReadTable<T(0)>(src: Source, f: RowFormat<T>) returns (rows: Option<seq<T>>)
    modifies src
    ensures match DecodeTable(f, old(src.rest))
            case None => rows.None?
            case Some((table, rest)) => rows == Some(table) && src.rest == rest
  {
    var n := src.ReadUint32();
    if n.None? {
      return None;
    }
    var table := new T[n.value];
    var buf := new u8[f.size];
    ghost var all := DecodeRows(f, n.value, src.rest);
    BehindNone(all);
    assert table[..0] == [];
    hide DecodeRows, Behind;
    for i := 0 to n.value
      invariant all == Behind(table[..i], DecodeRows(f, n.value - i, src.rest))
    {
      ghost var b, done := src.rest, table[..i];
      var ok := src.ReadFull(buf);
      ReadNext(f, done, n.value - i, b);
      if !ok {
        return None;
      }
      table[i] := f.dec(buf[..]);
      assert table[..i + 1] == done + [f.dec(b[..f.size])];
    }
    assert table[..] == table[..n.value];
    BehindAll(f, table[..], src.rest);
    return Some(table[..]);
  }

  method LoadSnapshot(src: Source, expected: Hash) returns (r: Result<DB, LoadError>)
    modifies src
    ensures r == Decode(old(src.rest), expected)
  {
    var b := src.rest;
    var magic := new u8[4];
    var ok := src.ReadFull(magic);
    if !ok {
      return Failure(Truncated);
    }
    if magic[..] != MAGIC {
      return Failure(BadMagic);
    }
    var ver := src.ReadUint32();
    if ver.None? {
      return Failure(Truncated);
    }
    assert b[4..][..4] == b[4..8] && b[4..][0..4] == b[4..8];
    if ver.value != VERSION {
      return Failure(BadVersion);
    }
    assert src.rest == b[8..];
    var got := new u8[32];
    ok := src.ReadFull(got);
    if !ok {
      return Failure(Truncated);
    }
    assert got[..] == b[8..][..32] == b[8..40];
    if expected != NO_HASH && got[..] != expected {
      return Failure(Stale);
    }
    assert src.rest == b[40..];
    var reserved := new u8[16];
    ok := src.ReadFull(reserved);
    if !ok {
      return Failure(Truncated);
    }
    assert src.rest == b[56..];
    hide DecodeTable;
    var v4 := ReadTable(src, V4Row());
    if v4.None? {
      return Failure(Truncated);
    }
    var v6 := ReadTable(src, V6Row());
    if v6.None? {
      return Failure(Truncated);
    }
    var asn := ReadTable(src, AsnRow());
    if asn.None? {
      return Failure(Truncated);
    }
    return Success(DB(v4.value, v6.value, asn.value));
  }
}
