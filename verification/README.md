# Verified model of regionchecker's core

regionchecker maps an IP address or a host name to a country. This project models, in Dafny 4.11,
the parts of it whose correctness is not visible in any single function, and proves what holds of
them for all inputs, all runs and all tables.

- **RIR range index** (`Words`, `Sequences`, `Addresses`, `Decimal`, `RirTypes`, `Parser`, `Builder`,
  `Sorting`, `Lookup`, `Snapshot`, `SnapshotIO`, `Cidr`, `EndToEnd`). Delegated-statistics lines are parsed, turned
  into range tables with the uint32 and uint64 wrap-around the code has, sorted, written to and read
  from the RCHK snapshot, and binary-searched. `EndToEnd` ties the chain together: the answer for every
  address and ASN is that of a linear scan over the records in the text, computed without wrapping.
  `Cidr` proves that the CIDR decomposition is exact, minimum, unimodal and at most 62 long.
- **Conditional-GET cache** (`FetchProtocol`, `FetchOnce`). A state machine over durable state: an
  origin that publishes versions, one fetch in flight for the key, temporary file, fsync, rename and directory
  fsync for body and then sidecar, failure between any two steps, deletion, replacement of the
  directory, and power loss that may drop any mix of renames not yet synced. `FetchOnce` is the code as it runs
  without interference, every call allowed to fail, and each of its executions is a run of the machine.
- **Classification** (`Decision`, `Classifier`). The early-exit ladder over arbitrary enrichment
  services with a record of every online call, and the vote it replaced.
- **Reserved ranges** (`Bogon`). Longest-prefix match by stable sort and first hit, for any table.
- **RDAP and CT log** (`Rdap`, `CtLog`). The two-pass entity walk with its veto, the choice of
  certificates, and the hand-written integer printer.

Code that changes state is modelled by methods and classes proved against functions; the properties
are then lemmas about those functions. Random choices of the runtime (map iteration order, ties in
`sort.Slice`) are arbitrary. Strings are byte strings.

## What came out differently from the documentation

- **A reverting origin can defeat the cache.** "Validators are never reused" is sufficient
  (`NeverReusedIsUnambiguous`), but an entity tag that identifies its content exactly is not: when the
  origin goes from A to B and back to A, a process that stops between writing B's body and
  B's sidecar leaves B's body beside A's validators, the next request is answered 304, and B is
  returned (`RevertIsAmbiguous`). `FreshIffUnambiguous` gives the exact condition on the origin's
  history.
- **The apex switch of the DNS-failed branch has no Wayback case** (`classifier.go:295-308`, against 447-449).
  A hit there leaves the confidence empty. `HostResultIsSupported` proves that results carry a tier
  and matching evidence exactly when this is not the case that answers, and always once the case is added;
  `ApexWaybackIsReached` gives an input.
- **A registrant does not always come first.** A contact nested in an entity listed earlier wins
  (`RegistrantDecides`, `RegistrantCanLose`), and a privacy veto inside a nested list does not end
  the outer walk (`NestedVetoIsLocal`).
- **An apex enricher that says ok without a country is passed over, and the apex enrichers after it are not asked**
  (`classifier.go:183-210`, 293; `ApexAnswerEndsApex`, the exact condition in `ApexRungIsLeftOutIff` and
  `RungIsAskedIff`, an input in `ApexRungIsLeftOut`). Only a custom enricher can do this: the five of the
  repository report ok exactly when they have a country (for example `internal/tlscert/client.go:47-68`).
- **A zone makes a reserved IPv6 address public**, since a prefix contains no address with a zone (`ZoneDefeatsEveryEntry`).
- **`vcardCountry` takes the last `cc` parameter**, not the first address (`LastAddressWins`); the country name of the
  value counts only when no `cc` does.
- `docs/architecture.md:76` says ranges are decomposed when the table is built; `Build` stores them whole, and
  `StoredRangeIsItsCidrs` shows that the two denote the same addresses. `docs/cache.md` gives row sizes of
  12 and 36 bytes; the code writes 24, 44 and 16.
- `itoa` renders every int64 exactly except the minimum, which becomes `-`.
- A row count of 2^32 or more is truncated by the snapshot; loading inverts saving exactly
  below that (`RoundTripsIffCountable`).

## Model

| member | source | states |
|---|---|---|
| Addresses.V4FromWord | internal/rir/parser.go:233-240 | splitting a uint32 into octets and joining them gives the number back |
| Addresses.V4ToWord | internal/rir/parser.go:233-240 | joining octets and splitting them gives the address back |
| Addresses.OrderIsLexicographic | internal/rir/parser.go:233-240 | numeric order is the order of the octets read from the left |
| Addresses.NextAddress | internal/rir/parser.go:209-228 | the successor of a.b.c.d counts up the last octet, with carry |
| Addresses.OctetPrefixes | internal/bogon/bogon.go:98-102 | prefixes of 8, 16, 24 and 32 bits contain exactly the addresses with the same first one, two, three and four octets |
| Addresses.HalfPrefixes | internal/bogon/bogon.go:98-102 | an IPv6 prefix of 64 bits compares the high halves, one of 128 both |
| Addresses.UnmapIs | internal/bogon/bogon.go:97 | ::ffff:a.b.c.d becomes a.b.c.d and no other IPv6 address changes |
| Addresses.SharedPrefixesNest | internal/bogon/bogon.go:98-102 | of two prefixes that share an address the longer lies within the shorter, and equally long ones coincide |
| Cidr.CIDRsFromV4Count | internal/rir/parser.go:199-231 | fails exactly for non-IPv4 starts and counts of 2^32 or more; otherwise, although the cursor wraps, the prefixes spell the greedy block list, are at most 62, and denote exactly the range if and only if it ends within the address space |
| Cidr.WidestBlock | internal/rir/parser.go:217-220 | the inner loop ends at the widest aligned block that fits, without ever taking a remainder by zero |
| Cidr.Log2 | internal/rir/parser.go:242-249 | index of the highest set bit, zero for zero |
| Cidr.FirstIsWidest | internal/rir/parser.go:214-220 | doubling until the first misfit misses no wider block |
| Cidr.DoublingTest | internal/rir/parser.go:218 | the loop test on the wrapped cursor, its shift and its modulus is exactly "the doubled block is aligned and fits" |
| Cidr.MaskingIsIdentity | internal/rir/parser.go:222 | clearing host bits does not move a block's start |
| Cidr.GreedyTiles | internal/rir/parser.go:196-231 | the blocks are aligned and lie end to end from start to start + count |
| Cidr.TilingCoversOnce | internal/rir/parser.go:196-231 | a tiling covers exactly its range and its blocks do not overlap |
| Cidr.StaysInFirst | internal/rir/parser.go:214-220 | an aligned block inside the range that starts within the first greedy block ends within it |
| Cidr.GreedyIsMinimum | internal/rir/parser.go:196-198 | every set of aligned blocks covering the range, overlapping or not, has at least as many members |
| Cidr.GreedyShape | internal/rir/parser.go:213-229 | block sizes strictly grow to some position and strictly shrink from it on |
| Cidr.AtMost62 | internal/rir/parser.go:206-229 | no uint32 count needs more than 62 prefixes |
| Cidr.SixtyTwoIsReached | internal/rir/parser.go:206-229 | the 2^32 - 2 addresses from 0.0.0.1 on take exactly 62 |
| Cidr.DenotesWrappedRange | internal/rir/parser.go:209-228 | an address is in some prefix exactly when it is in the range counted modulo 2^32 |
| Cidr.ExactUnlessWrapped | internal/rir/parser.go:209-228 | the prefixes denote exactly [start, start + count) if and only if the range ends within the address space |
| Cidr.OctetRangesAreOnePrefix | internal/rir/parser.go:199-231 | 256 addresses from a.b.c.0 on are a.b.c.0/24, and 65536 from a.b.0.0 on are a.b.0.0/16 |
| Decimal.ParsePrinted | internal/rir/parser.go:116 | a printed uint64 parses back to itself |
| Decimal.ParseUintIs | internal/rir/parser.go:172-175 | exactly the nonempty digit strings below 2^64 are read, each as the number it denotes |
| RirTypes.RegistrySurvives | internal/rir/sorted.go:23-58 | the registry name answered is the one in the record for the six registries, "ripencc" for "ripe", and empty for any other |
| RirTypes.StoredCodes | internal/rir/parser.go:38-53 | the numeric code of every registry and status text, zero for any other |
| Parser.SplitJoin | internal/rir/parser.go:103 | fields without a bar survive joining and splitting |
| Parser.SplitAtBars | internal/rir/parser.go:103 | a line is cut at its bars |
| Parser.IsDigits | internal/rir/parser.go:184-194 | true exactly for nonempty strings of decimal digits |
| Parser.RecordIsItsFields | internal/rir/parser.go:151-182 | which lines of seven or more fields are records, and that each part of the record is its field |
| Parser.HeaderIsItsFields | internal/rir/parser.go:114-127 | each part of the header is its field, with zero or the largest uint64 for an unreadable count |
| Parser.LineStops | internal/rir/parser.go:98-144 | exactly which line ends the run with an error, from its text, and when a version line is taken |
| Parser.RunStopsIff | internal/rir/parser.go:93-149 | a run fails if and only if some line stops it, knowing of a version line before it |
| Parser.Parser.Parse | internal/rir/parser.go:93-149 | delivers, in order, what folding one line at a time delivers, with its count, header and first error |
| Parser.HeaderIsNoRecord | internal/rir/parser.go:114-128 | no line that the header test accepts is a record |
| Parser.PrintedRecord | internal/rir/parser.go:151-182 | a printed record is not header-shaped and parses back to itself, extended format included |
| Parser.PrintedHeader | internal/rir/parser.go:114-128 | a printed version line is header-shaped and is read back |
| Parser.ConsumePrinted | internal/rir/parser.go:98-144 | comments, summaries and star lines change nothing, a record is delivered, the first version line becomes the header, a second one is an error |
| Parser.ParsePrintedStream | internal/rir/parser.go:90-149 | a printed stream is read back exactly, in order, with its header, if and only if it has at most one version line |
| Builder.ParseUint32 | internal/rir/builder.go:99-108 | succeeds exactly on digit strings, the empty one included, with the value modulo 2^32 |
| Builder.End32Exact | internal/rir/builder.go:37 | the wrapped end is the true last number exactly when start + value is at most 2^32 |
| Builder.PrefixEndIsBlockEnd | internal/rir/builder.go:111-123 | across the 64-bit split the result is the last address of the aligned block around the start |
| Builder.AlignedRangesNest | internal/rir/builder.go:111-123 | IPv6 ranges on their own boundaries nest or are disjoint |
| Builder.RejectIs | internal/rir/builder.go:20-83 | exactly which records make the build fail |
| Builder.AppendRow | internal/rir/builder.go:27-83 | an accepted record adds its row, if it makes one, to the table of its kind and changes no other |
| Builder.Build | internal/rir/builder.go:13-97 | fails exactly when parsing or a record fails; otherwise each table is a start-sorted permutation of the rows of the delivered records |
| Sorting.SortSlice | internal/rir/builder.go:91-95 | a sorted permutation |
| Lookup.Search | internal/rir/sorted.go:112-114 | the half-open bisection loop ends where the recursive bisection does, for any predicate |
| Lookup.BisectBoundary | internal/rir/sorted.go:112-114 | for any predicate the result is true at the index and false just before it |
| Lookup.BisectFirst | internal/rir/sorted.go:112-114 | for a predicate that stays true the result is the first true index |
| Lookup.Cmp128IsNumeric | internal/rir/sorted.go:171-183 | comparing halves is comparing 128-bit numbers |
| Lookup.FoundRowContains | internal/rir/sorted.go:112-125 | on any table, sorted or not, a row that is found begins at or before the key and reaches it |
| Lookup.MarchingRowsAreFound | internal/rir/sorted.go:112-125 | when starts and ends never go back, something is found exactly when some row contains the key |
| Lookup.Find32Correct | internal/rir/sorted.go:152-169 | both facts for the IPv4 and ASN tables |
| Lookup.Find128Correct | internal/rir/sorted.go:129-149 | both facts for the IPv6 table |
| Lookup.LookupIPCorrect | internal/rir/sorted.go:107-150 | a hit is the data of a row of the unmapped address's family that contains it, in any table; in sorted tables there is a hit exactly when some row contains it, if all rows name a country, and exactly when some row that contains it names a country, if the rows that contain it agree |
| Snapshot.RowsFaithful | internal/rir/serialize.go:121-259 | every row of the three tables fills its width and is read back from it |
| Snapshot.TableRoundTrip | internal/rir/serialize.go:121-166 | a table is read back, leaving what follows it |
| Snapshot.SnapshotRoundTrip | internal/rir/serialize.go:30-99 | a snapshot, whatever follows it, loads as the same tables under its hash or none, and is stale under any other |
| Snapshot.RoundTripsIffCountable | internal/rir/serialize.go:121-122 | loading inverts saving if and only if every row count fits a uint32 |
| Snapshot.SnapshotLength | internal/rir/serialize.go:21-26 | the length is 68 + 24 v4 + 44 v6 + 16 asn |
| Snapshot.DecodeExtends | internal/rir/serialize.go:59-99 | a successful load of any bytes has read at least what its result takes and ignores what follows |
| Snapshot.TruncationIsRejected | internal/rir/serialize.go:59-99 | no strict prefix of a snapshot loads, under any expected hash |
| Snapshot.LEByte | internal/rir/serialize.go:127-133 | the k-th byte of a little-endian number is the number shifted right by 8k bits |
| Snapshot.Layout32 | internal/rir/serialize.go:121-143 | the offset of every field of an IPv4 row, and of an ASN row |
| Snapshot.Layout128 | internal/rir/serialize.go:168-191 | the offset of every field of an IPv6 row |
| Snapshot.FileLayout | internal/rir/serialize.go:30-55 | "RCHK", version 1, hash and zeros at their offsets, then the tables in order, each after its count |
| Snapshot.LoadOutcomes | internal/rir/serialize.go:59-83 | from the bytes alone, exactly when a load fails for the magic, the version or the hash |
| SnapshotIO.PutUint | internal/rir/serialize.go:127-133 | little-endian store into a buffer, touching nothing else |
| SnapshotIO.WriteV4 | internal/rir/serialize.go:121-143 | the reused row buffer hands over exactly the table's encoding, or on a write error a front part of it |
| SnapshotIO.WriteV6 | internal/rir/serialize.go:168-191 | the reused row buffer hands over exactly the table's encoding, or on a write error a front part of it |
| SnapshotIO.WriteASN | internal/rir/serialize.go:218-236 | the reused row buffer hands over exactly the table's encoding, or on a write error a front part of it |
| SnapshotIO.SaveSnapshot | internal/rir/serialize.go:30-55 | through the buffered writer: succeeds exactly when the writer below takes the whole encoding, which then is what it holds; otherwise it holds what fits, which loads under no hash |
| SnapshotIO.ReadTable | internal/rir/serialize.go:145-166 | filling the row array from the stream is decoding the table, errors included |
| SnapshotIO.LoadSnapshot | internal/rir/serialize.go:59-99 | the result is that of decoding the stream, with the checks in the order of the code |
| EndToEnd.Row32Bounds | internal/rir/builder.go:27-45 | the stored row of a well-formed IPv4 or ASN record has the record's true bounds |
| EndToEnd.Table32Sorted | internal/rir/builder.go:91-95 | sorting disjoint ranges by start also sorts their ends |
| EndToEnd.LookupIsScan | internal/rir/sorted.go:107-169 | for disjoint well-formed records every IP and ASN lookup on the built index equals a linear scan of the records |
| EndToEnd.PrintedStreamAnswers | internal/rir/builder.go:13-97 | the same from text: parse, build, save, load, look up; the build cannot fail on such a stream |
| EndToEnd.UpdateAndOpen | cmd/regionchecker/subcommands.go:208-215 | building, saving under the zero hash and loading fail on a rejected stream; on an accepted one the loaded database is built from the delivered records if and only if each kind makes fewer than 2^32 rows, and then it answers every address and ASN like a scan of disjoint records |
| EndToEnd.StoredRangeIsItsCidrs | internal/rir/builder.go:33-45 | the stored range is exactly the union of the CIDR blocks |
| EndToEnd.LoadedIsBuilt | internal/rir/serialize.go:121-122 | what was built and saved loads as built from the same records if and only if each table has fewer than 2^32 rows |
| FetchProtocol.ReadRawKeeps | internal/cache/fetch.go:81-91 | a 304 is served from the body of a version between the one whose validators were sent and the current one, and the invariant is kept |
| FetchProtocol.RenameKeeps | internal/cache/store.go:103-107 | a rename keeps durable state in order, body before sidecar |
| FetchProtocol.SyncDirKeeps | internal/cache/store.go:108-111 | syncing the directory lets the sidecar of the new body follow |
| FetchProtocol.PowerLossKeeps | internal/cache/store.go:72-112 | power loss at any point, dropping any mix of unsynced renames, keeps the invariant |
| FetchProtocol.StepKeeps | internal/cache/fetch.go:60-129 | every step of every kind keeps the invariant |
| FetchProtocol.RunKeeps | internal/cache/fetch.go:60-129 | so does every run |
| FetchProtocol.DurableStateIsConsistent | internal/cache/store.go:72-112 | after any run, now or after power loss, a body file is a whole body the origin once served, and a sidecar carries the validators, the hash and the length of a version never newer than that body |
| FetchProtocol.FetchIsFresh | internal/cache/fetch.go:34-37 | on every run over an unambiguous history a successful fetch returns the body the origin held when it answered |
| FetchProtocol.WrongBodyRun | internal/cache/fetch.go:98-110 | over any ambiguous history some run returns a wrong body |
| FetchProtocol.FreshIffUnambiguous | internal/cache/fetch.go:60-115 | fetches are fresh on every run through a history if and only if the history is unambiguous |
| FetchProtocol.NeverReusedIsUnambiguous | internal/cache/fetch.go:66-73 | with a standard origin (sections 13.1.2, 13.1.3 and 15.4.5 of RFC 9110, tags compared weakly), never reusing validators up to that comparison is enough |
| FetchProtocol.RevertIsAmbiguous | internal/cache/fetch.go:66-73 | content that changes and changes back is served wrong on some run even with exact entity tags |
| FetchOnce.Store.FillTmp | internal/cache/store.go:88-102 | the temporary file is complete and synced, or the fetch is over and no other file has changed |
| FetchOnce.Store.AtomicWrite | internal/cache/store.go:74-112 | succeeds exactly when no call fails, and then the file is in place and durable; otherwise the fetch ends; every execution is a run of the protocol |
| FetchOnce.Store.ReadMetaOk | internal/cache/fetch.go:117-129 | validators are used exactly when the sidecar can be read and decoded and the body is found |
| FetchOnce.Store.NotModified | internal/cache/fetch.go:81-91 | a 304 returns the body on disk and renews only the time of the sidecar |
| FetchOnce.Store.Received | internal/cache/fetch.go:92-112 | a 200 stores the body, then validators, hash, time and length |
| FetchOnce.Store.FetchOnce | internal/cache/fetch.go:60-115 | exactly when a fetch succeeds; the body returned, both files durable, and the sidecar decoding to the response's validators, hash, length and time after a 200, to the old sidecar with the new time after a 304; every execution is a run of the protocol |
| Decision.Decide | internal/classifier/decision.go:47-140 | the decision is the one for some iteration order of the vote map |
| Decision.Lead | internal/classifier/decision.go:63-68 | whatever key comes next, the loop holds the first country with the most votes so far |
| Decision.Tally | internal/classifier/decision.go:57-62 | the map counts, for each named country, the signals that name it |
| Decision.LeaderLeads | internal/classifier/decision.go:63-68 | whatever the order, nobody has more votes than the leader |
| Decision.OrderMattersIffSplit | internal/classifier/decision.go:63-90 | the answer depends on the iteration order if and only if the signals split two against two |
| Decision.HighHasTwoVotes | internal/classifier/decision.go:70-90 | high is answered only for a country with at least two signals that none outvotes |
| Decision.Precedence | internal/classifier/decision.go:47-140 | the outcome by precedence, from the signals alone: agreement, ASN brand, RDAP, DNS failure, domain against IP, generic domain, single signal |
| Decision.DecisionIsSupported | internal/classifier/decision.go:47-140 | the country is that of the signal the tier names, empty exactly for unknown; unknown despite a signal only when that is the IP's after a DNS failure, or the domain's on a raw IP |
| Classifier.EnrichApex | internal/classifier/classifier.go:183-210 | asks the five enrichers in order until one answers |
| Classifier.ClassifyHost | internal/classifier/classifier.go:223-490 | the result and the calls are those of the ladder as data |
| Classifier.ClassifyIP | internal/classifier/classifier.go:134-178 | an error exactly for reserved addresses; otherwise the address, its IP country, registry, ASN and organisation are recorded, no host evidence, and the country is the brand's if there is one, else the IP's, else unknown |
| Classifier.Classify | internal/classifier/classifier.go:120-132 | dispatch: an address gives exactly what ClassifyIP promises, a host the ladder's result; and for every success the evidence property with its one exception |
| Classifier.BothSignalsDecide | internal/classifier/classifier.go:256-275 | domain and IP country known: country and tier, and nothing is asked |
| Classifier.BrandDecides | internal/classifier/classifier.go:340-358 | the brand behind the first public address decides, with ASN and organisation recorded |
| Classifier.InputDecides | internal/classifier/classifier.go:360-418 | from the answers alone: TLS decides if it answers, else the CT log, else the content scan, else RDAP; the calls made are exactly those up to the answer |
| Classifier.RegistrantDecidesUnresolved | internal/classifier/classifier.go:277-290 | after a failed resolve RDAP is the only source asked about the host before its parent |
| Classifier.GenericDecides | internal/classifier/classifier.go:420-426 | with those silent, a generic or unknown domain on an Indonesian address is Indonesian |
| Classifier.ApexDecides | internal/classifier/classifier.go:183-210 | next the parent, by the first of its five sources to answer, with that source's tier |
| Classifier.LastDecides | internal/classifier/classifier.go:459-490 | then Wayback on the host, the domain's country, the IP's if the host resolved, or unknown |
| Classifier.ApexWayback | internal/classifier/classifier.go:183-210 | Wayback answers for the apex exactly when the four enrichers before it do not and it does |
| Classifier.HostResultIsSupported | internal/classifier/classifier.go:277-336 | a declared tier, no country exactly when unknown, else the named evidence: always with the missing case, as written exactly when that case does not answer |
| Classifier.ApexWaybackIsReached | internal/classifier/classifier.go:295-308 | a concrete input that reaches the missing case: the country is set, the tier and the evidence are empty |
| Classifier.CallsAreFrugal | internal/classifier/classifier.go:256-490 | for arbitrary services: no (source, host) pair twice, at most 10 calls, 7 after a DNS failure, none when both countries are known or a brand decides, and a call only after every earlier one was passed over |
| Classifier.LadderIsOneClimb | internal/classifier/classifier.go:277-472 | with services that say ok only with a country, the nested conditionals, as written and with the case added, are one climb of the applicable ladder, decided by the first answer |
| Classifier.CallsFollowLadder | internal/classifier/classifier.go:277-472 | for arbitrary services: the calls are the enabled rungs of a path down the ladder that goes on exactly past rungs passed over, visits no apex rung after one that answered, and leaves out only apex rungs after one that answered without a country; the last call decides if it was not passed over, else the generic-domain rule or the single signal |
| Classifier.NoRungIsSkipped | internal/classifier/classifier.go:277-472 | for arbitrary services: every enabled rung above a call was asked before it and passed over, or is on the apex below one that answered without a country |
| Classifier.LadderIsExhausted | internal/classifier/classifier.go:277-472 | when every call was passed over, every enabled rung of the applicable ladder was asked, with the same exception |
| Classifier.RungIsAskedIff | internal/classifier/classifier.go:277-472 | for arbitrary services, exactly which rungs are asked: the enabled ones above which nothing answers, or nothing but apex rungs of which the first to answer named no country, the rung itself being on the input |
| Classifier.ApexAnswerEndsApex | internal/classifier/classifier.go:183-210 | once an apex enricher answers, with a country or without, none of those after it is asked |
| Classifier.ApexRungIsLeftOutIff | internal/classifier/classifier.go:183-210 | when the climb comes to the last rung, an enabled apex enricher was left out exactly when one before it answered |
| Classifier.ApexRungIsLeftOut | internal/classifier/classifier.go:292-312 | a concrete input: TLS on the apex says ok without a country, the CT log is not asked, and the country that it names is not found |
| Classifier.OnlyTheWinnerIsRecorded | internal/classifier/classifier.go:256-490 | the only enrichment field filled is that of the last call's source, with what it answered |
| Classifier.SignalsArePreserved | internal/classifier/classifier.go:242-250 | the ladder changes nothing of the signals computed before it |
| Classifier.ASNIsRecorded | internal/classifier/classifier.go:340-345 | ASN and organisation are those of the first public address, on the paths that look them up |
| Classifier.BaseSignals | internal/classifier/classifier.go:224-250 | the signals are the domain's country and type, and the IP country and registry of the first public address, if any |
| Classifier.LadderAgreesWithVote | internal/classifier/classifier.go:256-490 | without enrichers the ladder and the vote give the same country and tier, unless the resolver fails and still returns an address whose country differs from the domain's, and then they do not |
| Bogon.Table.constructor | internal/bogon/bogon.go:76-88 | the table is the stable sort of the definitions, longest prefix first |
| Bogon.Table.Match | internal/bogon/bogon.go:93-104 | the category of the longest containing prefix, the first listed among equals; public when there is none; reserved for the zero address |
| Bogon.Table.IsBogon | internal/bogon/bogon.go:107-109 | true for the zero address; otherwise only for addresses the table matches, and for all of them when no entry has the empty category |
| Bogon.FirstHitAnswers | internal/bogon/bogon.go:98-102 | the first hit in the sorted table is the answer for the table as written |
| Bogon.AnswerIsMostSpecific | internal/bogon/bogon.go:84-88 | the answering prefix lies within every prefix that contains the address |
| Bogon.OrderIrrelevant | internal/bogon/bogon.go:84-88 | without duplicate prefixes the order of the definitions does not matter |
| Bogon.MappedEntriesAreDead | internal/bogon/bogon.go:97 | after unmapping, no entry inside ::ffff:0:0/96 can answer |
| Bogon.ZoneDefeatsEveryEntry | internal/bogon/bogon.go:97-103 | the bits alone decide for an address without a zone; with one, unless it is unmapped to IPv4, no entry of any table matches |
| Bogon.ZonedLinkLocalIsPublic | internal/bogon/bogon.go:97-103 | so a link-local address is matched by fe80::/10 without a zone and by nothing with one |
| Rdap.VcardCountry | internal/rdap/parse.go:148-195 | the last two-letter cc parameter, else the first two-letter country name, with the first nonempty name |
| Rdap.LastCCDecides | internal/rdap/parse.go:172-180 | the last two-letter cc parameter is the country, wherever it stands |
| Rdap.FirstNameDecides | internal/rdap/parse.go:181-191 | without one, the first two-letter country name; without that, none |
| Rdap.FirstOrgIs | internal/rdap/parse.go:168-172 | the organisation is the first nonempty name |
| Rdap.LastAddressWins | internal/rdap/parse.go:172-186 | a card with two addresses of different cc, of which the second decides |
| Rdap.WalkIsSound | internal/rdap/parse.go:101-133 | the answer is the data of an entity of the tree that is no privacy proxy and is a registrant or not a registrar |
| Rdap.WalkIsComplete | internal/rdap/parse.go:101-133 | without a veto in the tree, an eligible entity at any depth makes the walk succeed |
| Rdap.FirstContactAnswers | internal/rdap/parse.go:119-132 | without a registrant that has a country: the first eligible entity of the list answers when nothing eligible is nested; with something eligible and no veto nested, the answer is from there |
| Rdap.FirstNestedWins | internal/rdap/parse.go:101-118 | before any registrant, the first entity with a find below it gives the answer |
| Rdap.RegistrantDecides | internal/rdap/parse.go:101-118 | the first registrant decides, by country or veto, when no eligible entity is nested in those listed before it, and any other answer is the data of such an entity; where nothing nested there vetoes, an eligible entity there always takes the answer |
| Rdap.RegistrantCanLose | internal/rdap/parse.go:102-118 | a concrete tree in which a contact nested in the registrar's entry beats the registrant |
| Rdap.NestedVetoIsLocal | internal/rdap/parse.go:105-118 | a concrete tree in which a privacy veto in a nested list does not end the walk outside it |
| CtLog.Itoa | internal/ctlog/client.go:178-199 | the canonical rendering, within the 20-byte buffer, if and only if the id is not the minimum |
| CtLog.FillDigits | internal/ctlog/client.go:183-193 | the digit loop leaves the digits at the end of the buffer and room for a sign |
| CtLog.RenderingIs | internal/ctlog/client.go:178-199 | most significant digit first, after a minus sign |
| CtLog.RenderingInjective | internal/ctlog/client.go:133 | distinct ids give distinct queries |
| CtLog.QueryIDs | internal/ctlog/client.go:115-127 | the nonzero ids in order of first appearance |
| CtLog.FirstAppearancesAre | internal/ctlog/client.go:115-127 | without repeats, and exactly the nonzero ids |
| CtLog.ScanCerts | internal/ctlog/client.go:75-97 | the country of the smallest id that has one among the limit smallest distinct nonzero ids, the limit cut by the time budget; empty when none has |

## Left out

- HTTP, TLS, DNS, crt.sh and Wayback traffic, JSON and X.509 decoding: foreign I/O, represented by arbitrary functions or decoded values.
- netip text parsing, calendar parsing, SHA-256, the public suffix list and regular expressions: library code, represented by arbitrary functions with the inverses the properties need.
- `bufio.Scanner`: the stream is already cut into lines; its own error, such as a line over 1 MB, is a parameter.
- Parser.Parser.Parse: the callback is a function of the record, since Build's callback decides by the record alone; Build appends rows after the parse rather than during it.
- `sort.Slice`, `sort.SliceStable`: stand-ins that promise only a (stable) sorted permutation.
- SnapshotIO.SaveSnapshot: the writer below takes a number of bytes, or any, and then fails; other ways of failing are not modelled.
- SnapshotIO.ReadTable: one reader for the three tables, which differ only in their row format.
- FetchProtocol.FetchIsFresh: one fetch at a time for a key, which singleflight gives within a process; `Locker` and cross-process exclusion are not modelled, and `update-db` does not take the lock.
- FetchOnce.Store.AtomicWrite: random names of temporary files are taken to be fresh, and orphans in `tmp/`, `SweepTmp` and the path functions are not modelled, as no step of a fetch reads them; Windows, where the directory sync does nothing, is not modelled.
- The parsed snapshot file is written by `update-db` without the atomic write; nothing is claimed about its durability.
- Classifier.ClassifyHost: reserved-range matching, RIR lookup, ASN lookup and brand matching enter as arbitrary functions; reason strings and lookup durations are not modelled.
- Decision.Decide: the reason string and its list of agreeing signals are not modelled.
- Rdap.WalkIsSound: the final trimming and upper-casing of the country, and the follow-up link, are not modelled.
- CtLog.ScanCerts: the time limit is a number of fetches; caching and host normalisation are not modelled.
- The per-source caches, the LRU wrapper, the resolver cache, the command line, the server, metrics and output: plumbing with easy properties.
- The country tables: constant data.
