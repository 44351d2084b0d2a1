/** The delegated-statistics reader (internal/rir/parser.go), over a stream already cut
    into lines, and the printer it inverts. */
module Parser {
  import opened Wrappers
  import opened Words
  import opened Decimal
  import opened RirTypes
  import opened Sequences

  // ----- strings.Split -----

  function Split(s: string): (fields: seq<string>)
    ensures |fields| >= 1
  {
    if s == "" then [""]
    else
      var rest := Split(s[1..]);
      if s[0] == '|' then [""] + rest else [[s[0]] + rest[0]] + rest[1..]
  }

  function Join(fields: seq<string>): string
    requires |fields| >= 1
  {
    if |fields| == 1 then fields[0] else fields[0] + "|" + Join(fields[1..])
  }

  predicate NoBar(s: string) { '|' !in s }

  lemma {:induction false} SplitField(s: string)
    requires NoBar(s)
    ensures Split(s) == [s]
    decreases |s|
  {
    if s != "" {
      SplitField(s[1..]);
      assert [s[0]] + s[1..] == s;
    }
  }

  lemma {:induction false} SplitAtBar(s: string, t: string)
    requires NoBar(s)
    ensures Split(s + "|" + t) == [s] + Split(t)
    decreases |s|
  {
    var u := s + "|" + t;
    if s == "" {
      assert u[1..] == t;
    } else {
      assert u[1..] == s[1..] + "|" + t;
      SplitAtBar(s[1..], t);
      assert [s[0]] + s[1..] == s;
    }
  }

  lemma {:induction false} SplitJoin(fields: seq<string>)
    requires |fields| >= 1 && forall f <- fields :: NoBar(f)
    ensures Split(Join(fields)) == fields
    decreases |fields|
  {
    if |fields| == 1 {
      SplitField(fields[0]);
    } else {
      SplitJoin(fields[1..]);
      SplitAtBar(fields[0], Join(fields[1..]));
    }
  }

  // ----- one line -----

  predicate IsNumeral(s: string) { s != "" && AllDigits(s) }

  method IsDigits(s: string) returns (b: bool)
    ensures b <==> IsNumeral(s)
  {
    if s == "" {
      return false;
    }
    for i := 0 to |s|
      invariant forall j :: 0 <= j < i ==> IsDigit(s[j])
    {
      if s[i] < '0' || s[i] > '9' {
        return false;
      }
    }
    return true;
  }

  predicate HeaderShaped(f: seq<string>) { |f| == 7 && IsNumeral(f[0]) && IsNumeral(f[2]) }

  function HeaderOf(f: seq<string>): Header
    requires |f| == 7
  {
    Header(f[0], f[1], f[2], UintOrClamp(ParseUint(f[3])), f[4], f[5], f[6])
  }

  function KindOf(s: string): Option<RecordType> {
    if s == "ipv4" then Some(TypeIPv4)
    else if s == "ipv6" then Some(TypeIPv6)
    else if s == "asn" then Some(TypeASN)
    else None
  }

  function ParseRecord(lib: Library, f: seq<string>): Result<Record, string>
    requires |f| >= 7
  {
    match KindOf(f[2])
    case None => Failure("rir: unknown type")
    case Some(kind) =>
      var v := ParseUint(f[4]);
      if !v.Number? then Failure("rir: value")
      else
        var day := if f[5] != "" then lib.parseDate(f[5]) else None;
        Success(Record(f[0], f[1], kind, f[3], v.n,
                       if day.Some? then day.value else 0,
                       ParseStatus(f[6]), if |f| >= 8 then f[7] else ""))
  }

  // ----- the whole stream -----

  /** What a run has produced so far. */
  datatype Progress = Progress(header: Option<Header>, delivered: seq<Record>, err: Option<string>)

  /** One iteration of the scan loop. accept is the callback: it may reject a record with an error. */
  function Consume(lib: Library, skip: bool, accept: Record -> Option<string>, p: Progress, line: string): Progress {
    if line == "" || line[0] == '#' then p
    else
      var f := Split(line);
      if |f| < 6 then p.(err := Some("rir: short line"))
      else if |f| == 6 && f[5] == "summary" then p
      else if |f| < 7 then p.(err := Some("rir: short record line"))
      else if p.header.None? && HeaderShaped(f) then p.(header := Some(HeaderOf(f)))
      else if f[1] == "*" then p
      else
        match ParseRecord(lib, f)
        case Failure(e) => p.(err := Some(e))
        case Success(r) =>
          if skip && (r.status == STATUS_RESERVED || r.status == STATUS_AVAILABLE) then p
          else if accept(r).Some? then p.(err := accept(r))
          else p.(delivered := p.delivered + [r])
  }

  function ConsumeAll(
    lib: Library, skip: bool, accept: Record -> Option<string>, p: Progress, lines: seq<string>): Progress
    decreases |lines|
  {
    if lines == [] || p.err.Some? then p
    else ConsumeAll(lib, skip, accept, Consume(lib, skip, accept, p, lines[0]), lines[1..])
  }

  const FRESH := Progress(None, [], None)

  lemma ConsumeNext(lib: Library, skip: bool, accept: Record -> Option<string>, p: Progress, lines: seq<string>, i: nat)
    requires i < |lines| && p.err.None?
    ensures var q := Consume(lib, skip, accept, p, lines[i]);
            && ConsumeAll(lib, skip, accept, p, lines[i..]) == ConsumeAll(lib, skip, accept, q, lines[i + 1..])
            && (q.err.Some? ==> ConsumeAll(lib, skip, accept, p, lines[i..]) == q)
  {
  }

  lemma ConsumeNothing(lib: Library, skip: bool, accept: Record -> Option<string>, p: Progress, lines: seq<string>)
    ensures ConsumeAll(lib, skip, accept, p, lines[|lines|..]) == p
    ensures lines[0..] == lines
  {
  }

  class Parser {
    var header: Option<Header>
    var skip: bool

    constructor ()
      ensures header == None && !skip
    {
      header, skip := None, false;
    }

    /** scanErr is the scanner's own error, reported once the lines are used up.
        delivered lists the records the callback accepted, in order; n counts them. */
    method Parse(lib: Library, lines: seq<string>, scanErr: Option<string>, accept: Record -> Option<string>)
      returns (delivered: seq<Record>, n: u64, err: Option<string>)
      modifies this`header
      ensures var end := ConsumeAll(lib, skip, accept, FRESH, lines);
              && delivered == end.delivered
              && n == Wrap64(|delivered|)
              && header == (if end.header.Some? then end.header else old(header))
              && err == (if end.err.Some? then end.err else scanErr)
    {
      hide ConsumeAll, Split, ParseRecord, ParseUint, IsNumeral, Wrap64;
      delivered, n, err := [], 0, None;
      Wrap64Next(0);
      ConsumeNothing(lib, skip, accept, FRESH, lines);
      var headerSeen := false;
      ghost var p := FRESH;
      ghost var end := ConsumeAll(lib, skip, accept, FRESH, lines);
      for i := 0 to |lines|
        invariant p.delivered == delivered && p.err == None && err == None
        invariant n == Wrap64(|delivered|)
        invariant headerSeen == p.header.Some?
        invariant header == (if p.header.Some? then p.header else old(header))
        invariant ConsumeAll(lib, skip, accept, p, lines[i..]) == end
      {
        var line := lines[i];
        ConsumeNext(lib, skip, accept, p, lines, i);
        ghost var next := Consume(lib, skip, accept, p, line);
        if line == "" || line[0] == '#' {
          continue;
        }
        var fields := Split(line);
        if |fields| < 6 {
          err := Some("rir: short line");
          return;
        }
        if |fields| == 6 && fields[5] == "summary" {
          continue;
        }
        if |fields| < 7 {
          err := Some("rir: short record line");
          return;
        }
        var numeral0 := IsDigits(fields[0]);
        var numeral2 := IsDigits(fields[2]);
        if !headerSeen && |fields| == 7 && numeral0 && numeral2 {
          header := Some(Header(fields[0], fields[1], fields[2], UintOrClamp(ParseUint(fields[3])),
                                fields[4], fields[5], fields[6]));
          headerSeen := true;
          p := next;
          continue;
        }
        if fields[1] == "*" {
          continue;
        }
        var rec := ParseRecord(lib, fields);
        if rec.Failure? {
          err := Some(rec.error);
          return;
        }
        var r := rec.value;
        if skip && (r.status == STATUS_RESERVED || r.status == STATUS_AVAILABLE) {
          continue;
        }
        var rejected := accept(r);
        if rejected.Some? {
          err := rejected;
          return;
        }
        delivered := delivered + [r];
        Wrap64Next(|delivered| - 1);
        n := Wrap64(n + 1);
        p := next;
      }
      ConsumeNothing(lib, skip, accept, p, lines);
      if scanErr.Some? {
        err := scanErr;
      }
    }
  }

  // ----- what stops a run -----

  /** Seven fields, of which the first and the third are digits. */
  predicate VersionLine(f: seq<string>) {
    |f| == 7 && f[0] != "" && AllDigits(f[0]) && f[2] != "" && AllDigits(f[2])
  }

  predicate IsText(line: string) { line != "" && line[0] != '#' }

  /** The fields are cut at the bars. */
  lemma SplitAtBars(s: string, t: string)
    requires NoBar(s) && NoBar(t)
    ensures Split(s) == [s] && Split(s + "|" + t) == [s, t]
    ensures Split("a|b") == ["a", "b"] && Split("|") == ["", ""]
  {
    SplitField(s);
    SplitField(t);
    SplitAtBar(s, t);
    SplitAtBar("a", "b");
    SplitField("b");
    SplitAtBar("", "");
    SplitField("");
    assert "a" + "|" + "b" == "a|b" && "" + "|" + "" == "|";
  }

  /** A record line is one of a known type with a count that fits a uint64, and the record has its fields. */
  lemma RecordIsItsFields(lib: Library, f: seq<string>)
    requires |f| >= 7
    ensures ParseRecord(lib, f).Success? <==>
              f[2] in {"ipv4", "ipv6", "asn"} && f[4] != "" && AllDigits(f[4]) && Value(f[4]) < POW64
    ensures ParseRecord(lib, f).Success? ==>
              var r := ParseRecord(lib, f).value;
              && r.registry == f[0] && r.cc == f[1] && r.start == f[3] && r.value == Value(f[4])
              && r.status == ParseStatus(f[6]) && r.opaqueId == (if |f| >= 8 then f[7] else "")
              && (r.kind.TypeIPv4? <==> f[2] == "ipv4") && (r.kind.TypeIPv6? <==> f[2] == "ipv6")
              && (r.kind.TypeASN? <==> f[2] == "asn")
              && r.date == (if f[5] != "" && lib.parseDate(f[5]).Some? then lib.parseDate(f[5]).value else 0)
  {
    ParseUintIs(f[4]);
    hide ParseUint, AllDigits, Value, ParseStatus;
  }

  /** What is read of a version line; a record count that is no number is zero, and one too large is the
      largest uint64, since the error is not looked at. */
  lemma HeaderIsItsFields(f: seq<string>)
    requires |f| == 7
    ensures var h := HeaderOf(f);
            && h.version == f[0] && h.registry == f[1] && h.serial == f[2]
            && h.startDate == f[4] && h.endDate == f[5] && h.utcOffset == f[6]
            && (f[3] == "" ==> h.records == 0)
            && (f[3] != "" && AllDigits(f[3]) ==>
                  h.records == if Value(f[3]) < POW64 then Value(f[3]) else 0xffff_ffff_ffff_ffff)
  {
    ParseUintIs(f[3]);
    if f[3] != "" && AllDigits(f[3]) {
      DigitsNeverMisread(f[3], 0);
    }
    hide ScanUint, AllDigits, Value;
  }

  /** The line ends the run with an error, when seen says whether a version line came before it. */
  ghost predicate Stops(lib: Library, skip: bool, accept: Record -> Option<string>, seen: bool, line: string) {
    && IsText(line)
    && var f := Split(line);
       || |f| < 6
       || (|f| == 6 && f[5] != "summary")
       || (|f| > 6 && (seen || !VersionLine(f)) && f[1] != "*"
           && (f[2] !in {"ipv4", "ipv6", "asn"} || f[4] == "" || !AllDigits(f[4]) || Value(f[4]) >= POW64
               || (!(skip && f[6] in {"reserved", "available"})
                   && var r := ParseRecord(lib, f); r.Success? && accept(r.value).Some?)))
  }

  lemma SkippedStatus(s: string)
    ensures ParseStatus(s) == STATUS_RESERVED || ParseStatus(s) == STATUS_AVAILABLE <==> s in {"reserved", "available"}
  {
  }

  lemma LineStops(lib: Library, skip: bool, accept: Record -> Option<string>, p: Progress, line: string)
    requires p.err.None?
    ensures var q := Consume(lib, skip, accept, p, line);
            && (q.err.Some? <==> Stops(lib, skip, accept, p.header.Some?, line))
            && (q.header.Some? <==> p.header.Some? || (IsText(line) && VersionLine(Split(line))))
  {
    if IsText(line) && |Split(line)| > 6 {
      var f := Split(line);
      RecordIsItsFields(lib, f);
      SkippedStatus(f[6]);
      hide Split, ParseRecord, AllDigits, Value, ParseStatus;
    }
  }

  /** A version line among the first i lines. */
  ghost predicate SeenBefore(lines: seq<string>, i: nat)
    requires i <= |lines|
  {
    exists j :: 0 <= j < i && IsText(lines[j]) && VersionLine(Split(lines[j]))
  }

  lemma SeenNext(lines: seq<string>, i: nat)
    requires i < |lines|
    ensures SeenBefore(lines, i + 1) <==>
              (IsText(lines[0]) && VersionLine(Split(lines[0]))) || SeenBefore(lines[1..], i)
  {
    hide Split, VersionLine, IsText;
    var rest := lines[1..];
    if j :| 0 <= j < i && IsText(rest[j]) && VersionLine(Split(rest[j])) {
      assert rest[j] == lines[j + 1];
    }
    if j :| 0 <= j < i + 1 && IsText(lines[j]) && VersionLine(Split(lines[j])) {
      if j > 0 {
        assert rest[j - 1] == lines[j];
      }
    }
  }

  /** What stops the rest of the lines, seen from the first. */
  lemma StopsShift(lib: Library, skip: bool, accept: Record -> Option<string>, p: bool, q: bool, lines: seq<string>)
    requires lines != [] && !Stops(lib, skip, accept, p, lines[0])
    requires q <==> p || (IsText(lines[0]) && VersionLine(Split(lines[0])))
    ensures (exists i: nat ::
               i < |lines| - 1 && Stops(lib, skip, accept, q || SeenBefore(lines[1..], i), lines[1..][i]))
       <==> exists i: nat :: i < |lines| && Stops(lib, skip, accept, p || SeenBefore(lines, i), lines[i])
  {
    var rest := lines[1..];
    assert (p || SeenBefore(lines, 0)) == p;
    hide Stops, SeenBefore, IsText, VersionLine, Split;
    if i: nat :| i < |rest| && Stops(lib, skip, accept, q || SeenBefore(rest, i), rest[i]) {
      SeenNext(lines, i);
      assert (q || SeenBefore(rest, i)) == (p || SeenBefore(lines, i + 1));
      assert Stops(lib, skip, accept, p || SeenBefore(lines, i + 1), lines[i + 1]);
    }
    if i: nat :| i < |lines| && Stops(lib, skip, accept, p || SeenBefore(lines, i), lines[i]) {
      if i > 0 {
        SeenNext(lines, i - 1);
        assert (q || SeenBefore(rest, i - 1)) == (p || SeenBefore(lines, i));
        assert Stops(lib, skip, accept, q || SeenBefore(rest, i - 1), rest[i - 1]);
      }
    }
  }

  lemma {:induction false} RestStopsIff(
    lib: Library, skip: bool, accept: Record -> Option<string>, p: Progress, lines: seq<string>)
    requires p.err.None?
    ensures ConsumeAll(lib, skip, accept, p, lines).err.Some? <==>
              exists i: nat :: i < |lines| && Stops(lib, skip, accept, p.header.Some? || SeenBefore(lines, i), lines[i])
    decreases |lines|
  {
    if lines != [] {
      var q, rest := Consume(lib, skip, accept, p, lines[0]), lines[1..];
      LineStops(lib, skip, accept, p, lines[0]);
      assert ConsumeAll(lib, skip, accept, p, lines) == ConsumeAll(lib, skip, accept, q, rest);
      assert (p.header.Some? || SeenBefore(lines, 0)) == p.header.Some?;
      hide Consume, Stops, SeenBefore, IsText, VersionLine, Split;
      if q.err.None? {
        RestStopsIff(lib, skip, accept, q, rest);
        hide ConsumeAll;
        StopsShift(lib, skip, accept, p.header.Some?, q.header.Some?, lines);
      }
    }
  }

  /** The run fails exactly when some line stops it, knowing of a version line before it. */
  lemma RunStopsIff(lib: Library, skip: bool, accept: Record -> Option<string>, lines: seq<string>)
    ensures ConsumeAll(lib, skip, accept, FRESH, lines).err.Some? <==>
              exists i: nat :: i < |lines| && Stops(lib, skip, accept, SeenBefore(lines, i), lines[i])
  {
    RestStopsIff(lib, skip, accept, FRESH, lines);
    hide ConsumeAll, Stops, SeenBefore;
  }

  // ----- headers and records cannot be confused -----

  /** Whatever the header test accepts is not a record: its type field is a numeral. */
  lemma HeaderIsNoRecord(lib: Library, f: seq<string>)
    requires HeaderShaped(f)
    ensures ParseRecord(lib, f).Failure?
  {
    assert !IsDigit("ipv4"[0]) && !IsDigit("ipv6"[0]) && !IsDigit("asn"[0]);
  }

  // ----- printing -----

  datatype Item =
    | Comment(text: string)
    | Summary(cells: seq<string>)
    | StarLine(fields: seq<string>)
    | Version(h: Header)
    | Data(r: Record)

  function KindName(k: RecordType): string {
    match k
    case TypeIPv4 => "ipv4"
    case TypeIPv6 => "ipv6"
    case TypeASN => "asn"
  }

  function StatusName(s: u8): string {
    if s == STATUS_ALLOCATED then "allocated"
    else if s == STATUS_ASSIGNED then "assigned"
    else if s == STATUS_RESERVED then "reserved"
    else if s == STATUS_AVAILABLE then "available"
    else if s == STATUS_IETF then "ietf"
    else ""
  }

  function HeaderFields(h: Header): seq<string> {
    [h.version, h.registry, h.serial, Digits(h.records), h.startDate, h.endDate, h.utcOffset]
  }

  function RecordFields(lib: Library, r: Record): seq<string> {
    [r.registry, r.cc, KindName(r.kind), r.start, Digits(r.value),
     if r.date == 0 then "" else lib.printDate(r.date), StatusName(r.status)]
    + if r.opaqueId == "" then [] else [r.opaqueId]
  }

  predicate NotHash(s: string) { s == "" || s[0] != '#' }

  predicate WellFormedRecord(lib: Library, r: Record) {
    && NotHash(r.registry) && r.cc != "*" && r.status <= STATUS_IETF
    && NoBar(r.registry) && NoBar(r.cc) && NoBar(r.start) && NoBar(r.opaqueId)
    && (r.date != 0 ==>
          var text := lib.printDate(r.date);
          text != "" && NoBar(text) && lib.parseDate(text) == Some(r.date))
  }

  predicate WellFormed(lib: Library, item: Item) {
    match item
    case Comment(text) => text == "" || text[0] == '#'
    case Summary(cells) => |cells| == 5 && NotHash(cells[0]) && forall c <- cells :: NoBar(c)
    case StarLine(f) => |f| >= 7 && NotHash(f[0]) && f[1] == "*" && !HeaderShaped(f) && forall c <- f :: NoBar(c)
    case Version(h) =>
      && IsNumeral(h.version) && IsNumeral(h.serial) && h.registry != "*"
      && NoBar(h.registry) && NoBar(h.startDate) && NoBar(h.endDate) && NoBar(h.utcOffset)
    case Data(r) => WellFormedRecord(lib, r)
  }

  function Print(lib: Library, item: Item): string
    requires WellFormed(lib, item)
  {
    match item
    case Comment(text) => text
    case Summary(cells) => Join(cells + ["summary"])
    case StarLine(fields) => Join(fields)
    case Version(h) => Join(HeaderFields(h))
    case Data(r) => Join(RecordFields(lib, r))
  }

  predicate Skipped(skip: bool, r: Record) {
    skip && (r.status == STATUS_RESERVED || r.status == STATUS_AVAILABLE)
  }

  /** The records a stream carries, in order. */
  function Records(skip: bool, items: seq<Item>): seq<Record> {
    if items == [] then []
    else (if items[0].Data? && !Skipped(skip, items[0].r) then [items[0].r] else []) + Records(skip, items[1..])
  }

  function Versions(items: seq<Item>): seq<Header> {
    if items == [] then []
    else (if items[0].Version? then [items[0].h] else []) + Versions(items[1..])
  }

  function PrintAll(lib: Library, items: seq<Item>): (lines: seq<string>)
    requires forall item <- items :: WellFormed(lib, item)
    ensures |lines| == |items|
  {
    if items == [] then [] else [Print(lib, items[0])] + PrintAll(lib, items[1..])
  }

  lemma JoinStart(f: seq<string>)
    requires |f| >= 2 && NotHash(f[0])
    ensures Join(f) != "" && Join(f)[0] != '#'
  {
  }

  lemma NumeralHasNoBar(s: string)
    requires AllDigits(s)
    ensures NoBar(s) && NotHash(s)
  {
  }

  lemma PrintedRecord(lib: Library, r: Record)
    requires WellFormedRecord(lib, r)
    ensures var f := RecordFields(lib, r);
            && Split(Join(f)) == f && NotHash(f[0])
            && !HeaderShaped(f) && ParseRecord(lib, f) == Success(r)
  {
    var f := RecordFields(lib, r);
    DigitsDenote(r.value);
    NumeralHasNoBar(Digits(r.value));
    SplitJoin(f);
    ParsePrinted(r.value);
    assert KindOf(f[2]) == Some(r.kind);
    if HeaderShaped(f) {
      HeaderIsNoRecord(lib, f);
    }
  }

  lemma PrintedHeader(lib: Library, h: Header)
    requires WellFormed(lib, Version(h))
    ensures var f := HeaderFields(h);
            && Split(Join(f)) == f && NotHash(f[0])
            && HeaderShaped(f) && HeaderOf(f) == h && ParseRecord(lib, f).Failure?
  {
    var f := HeaderFields(h);
    DigitsDenote(h.records);
    NumeralHasNoBar(Digits(h.records));
    NumeralHasNoBar(h.version);
    NumeralHasNoBar(h.serial);
    SplitJoin(f);
    ParsePrinted(h.records);
    HeaderIsNoRecord(lib, f);
  }

  /** What one printed line does to a run. */
  function Effect(skip: bool, p: Progress, item: Item): Progress {
    if item.Data? && !Skipped(skip, item.r) then p.(delivered := p.delivered + [item.r])
    else if item.Version? && p.header.None? then p.(header := Some(item.h))
    else p
  }

  lemma ConsumePrinted(lib: Library, skip: bool, accept: Record -> Option<string>, p: Progress, item: Item)
    requires WellFormed(lib, item) && p.err.None?
    requires item.Data? && !Skipped(skip, item.r) ==> accept(item.r).None?
    ensures var q := Consume(lib, skip, accept, p, Print(lib, item));
            if item.Version? && p.header.Some? then q.err.Some? else q == Effect(skip, p, item)
  {
    match item
    case Comment(_) =>
    case Summary(cells) =>
      var f := cells + ["summary"];
      JoinStart(f);
      SplitJoin(f);
    case StarLine(f) =>
      JoinStart(f);
      SplitJoin(f);
    case Version(h) =>
      PrintedHeader(lib, h);
      JoinStart(HeaderFields(h));
    case Data(r) =>
      PrintedRecord(lib, r);
      JoinStart(RecordFields(lib, r));
  }

  /** The header a run already has, and those still to come. */
  function Headers(p: Progress, items: seq<Item>): seq<Header> {
    (if p.header.Some? then [p.header.value] else []) + Versions(items)
  }

  /** One line moves from what is to come to what has been read. */
  lemma RecordsAdvance(skip: bool, p: Progress, items: seq<Item>)
    requires items != []
    ensures Effect(skip, p, items[0]).delivered + Records(skip, items[1..]) == p.delivered + Records(skip, items)
  {
    hide Skipped;
    var rest := Records(skip, items[1..]);
    if items[0].Data? && !Skipped(skip, items[0].r) {
      assert Records(skip, items) == [items[0].r] + rest;
      SeqAssoc(p.delivered, [items[0].r], rest);
    } else {
      assert Records(skip, items) == [] + rest == rest;
    }
  }

  lemma HeadersAdvance(skip: bool, p: Progress, items: seq<Item>)
    requires items != []
    ensures if items[0].Version? && p.header.Some? then |Headers(p, items)| >= 2
            else Headers(Effect(skip, p, items[0]), items[1..]) == Headers(p, items)
  {
    hide Skipped;
    var rest := Versions(items[1..]);
    if items[0].Version? {
      assert Versions(items) == [items[0].h] + rest;
    } else {
      assert Versions(items) == [] + rest == rest;
    }
  }

  /** A printed stream is read back exactly, if and only if it has at most one version line:
      every record in order, nothing else delivered, and the header that was printed. */
  lemma {:induction false} ParsePrintedStream(
    lib: Library, skip: bool, accept: Record -> Option<string>, p: Progress, items: seq<Item>)
    requires forall item <- items :: WellFormed(lib, item)
    requires forall r <- Records(skip, items) :: accept(r).None?
    requires p.err.None?
    ensures var end := ConsumeAll(lib, skip, accept, p, PrintAll(lib, items));
            var headers := Headers(p, items);
            && (end.err.None? <==> |headers| <= 1)
            && (end.err.None? ==>
                  && end.delivered == p.delivered + Records(skip, items)
                  && end.header == if headers == [] then None else Some(headers[0]))
    decreases |items|
  {
    hide Consume, Print, WellFormed, Skipped;
    if items != [] {
      var lines := PrintAll(lib, items);
      var q := Consume(lib, skip, accept, p, lines[0]);
      var rest := Records(skip, items[1..]);
      assert items[0].Data? && !Skipped(skip, items[0].r) ==> Records(skip, items) == [items[0].r] + rest;
      ConsumePrinted(lib, skip, accept, p, items[0]);
      ConsumeNext(lib, skip, accept, p, lines, 0);
      ConsumeNothing(lib, skip, accept, p, lines);
      RecordsAdvance(skip, p, items);
      HeadersAdvance(skip, p, items);
      if q.err.None? {
        assert forall r <- rest :: r in Records(skip, items);
        hide ConsumeAll, Effect, Headers, Records;
        assert lines[1..] == PrintAll(lib, items[1..]);
        ParsePrintedStream(lib, skip, accept, q, items[1..]);
      }
    }
  }
}
