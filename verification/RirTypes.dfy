/** Delegated-statistics records and the range tables built from them
    (internal/rir/parser.go, internal/rir/sorted.go). Strings are byte strings:
    each character stands for one byte. */
module RirTypes {
  import opened Wrappers
  import opened Words
  import opened Addresses

  const STATUS_UNKNOWN: u8 := 0
  const STATUS_ALLOCATED: u8 := 1
  const STATUS_ASSIGNED: u8 := 2
  const STATUS_RESERVED: u8 := 3
  const STATUS_AVAILABLE: u8 := 4
  const STATUS_IETF: u8 := 5

  function ParseStatus(s: string): u8 {
    if s == "allocated" then STATUS_ALLOCATED
    else if s == "assigned" then STATUS_ASSIGNED
    else if s == "reserved" then STATUS_RESERVED
    else if s == "available" then STATUS_AVAILABLE
    else if s == "ietf" then STATUS_IETF
    else STATUS_UNKNOWN
  }

  const REG_UNKNOWN: u8 := 0
  const REG_APNIC: u8 := 1
  const REG_ARIN: u8 := 2
  const REG_RIPE: u8 := 3
  const REG_LACNIC: u8 := 4
  const REG_AFRINIC: u8 := 5
  const REG_IANA: u8 := 6

  function RegistryFromString(s: string): u8 {
    if s == "apnic" then REG_APNIC
    else if s == "arin" then REG_ARIN
    else if s == "ripencc" || s == "ripe" then REG_RIPE
    else if s == "lacnic" then REG_LACNIC
    else if s == "afrinic" then REG_AFRINIC
    else if s == "iana" then REG_IANA
    else REG_UNKNOWN
  }

  function RegistryName(id: u8): string {
    if id == REG_APNIC then "apnic"
    else if id == REG_ARIN then "arin"
    else if id == REG_RIPE then "ripencc"
    else if id == REG_LACNIC then "lacnic"
    else if id == REG_AFRINIC then "afrinic"
    else if id == REG_IANA then "iana"
    else ""
  }

  /** The name a lookup answers for the registry of a record: the same, but "ripencc" for "ripe" and nothing
      for any other text. */
  lemma RegistrySurvives(s: string)
    ensures RegistryName(RegistryFromString(s)) ==
            if s in {"apnic", "arin", "ripencc", "lacnic", "afrinic", "iana"} then s
            else if s == "ripe" then "ripencc"
            else ""
  {
  }

  /** The codes, which snapshots store. */
  lemma StoredCodes(s: string)
    ensures RegistryFromString("apnic") == 1 && RegistryFromString("arin") == 2
    ensures RegistryFromString("ripencc") == RegistryFromString("ripe") == 3
    ensures RegistryFromString("lacnic") == 4 && RegistryFromString("afrinic") == 5 && RegistryFromString("iana") == 6
    ensures s !in {"apnic", "arin", "ripencc", "ripe", "lacnic", "afrinic", "iana"} ==> RegistryFromString(s) == 0
    ensures ParseStatus("allocated") == 1 && ParseStatus("assigned") == 2 && ParseStatus("reserved") == 3
    ensures ParseStatus("available") == 4 && ParseStatus("ietf") == 5
    ensures s !in {"allocated", "assigned", "reserved", "available", "ietf"} ==> ParseStatus(s) == 0
  {
    assert "ripencc" != "apnic" && "ripe" != "apnic" && "ripe" != "arin" && "ripencc" != "arin";
  }

  datatype RecordType = TypeIPv4 | TypeIPv6 | TypeASN

  /** One delegated line. The date is in days since 1970, 0 when absent or unreadable. */
  datatype Record = Record(
    registry: string,
    cc: string,
    kind: RecordType,
    start: string,
    value: u64,
    date: u32,
    status: u8,
    opaqueId: string)

  datatype Header = Header(
    version: string,
    registry: string,
    serial: string,
    records: u64,
    startDate: string,
    endDate: string,
    utcOffset: string)

  /** Library code that is not shown: netip.ParseAddr, and time.Parse followed by
      the conversion to days, with printDate as a right inverse used to print streams. */
  datatype Library = Library(
    parseAddr: string -> Option<Addr>,
    parseDate: string -> Option<u32>,
    printDate: u32 -> string)

  /** The part every table row carries. */
  datatype Tag = Tag(cc0: u8, cc1: u8, registry: u8, status: u8, date: u32)

  /** A row of the IPv4 table, and of the ASN table. */
  datatype Range32 = Range32(start: u32, end: u32, tag: Tag)

  datatype Range128 = Range128(startHi: u64, startLo: u64, endHi: u64, endLo: u64, tag: Tag)

  datatype DB = DB(v4: seq<Range32>, v6: seq<Range128>, asn: seq<Range32>)

  function Byte(c: char): u8 { c as int % 0x100 }

  function TagOf(r: Record): Tag
    requires |r.cc| == 2
  {
    Tag(Byte(r.cc[0]), Byte(r.cc[1]), RegistryFromString(r.registry), r.status, r.date)
  }
}
