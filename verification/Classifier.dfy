/** The early-exit classification ladder (internal/classifier/classifier.go), over arbitrary
    enrichment services, with a record of every online call. */
module Classifier {
  import opened Wrappers
  import opened Addresses
  import opened Sequences
  import D = Decision

  datatype Source = TLSCert | CTLog | ContentScan | RDAP | Wayback

  /** One online lookup. */
  datatype Call = Call(source: Source, host: string)

  /** Everything the classifier consults. A disabled (nil) enricher is not in enabled; ask gives what
      an enricher reports as ok. lookupIP gives "" for a miss. */
  datatype Services = Services(
    enabled: set<Source>,
    ask: Call -> Option<string>,
    lookupIP: Addr -> (string, string),
    lookupASN: Option<Addr -> (int, string)>,
    brand: string -> Option<string>,
    isPublic: Addr -> bool,
    domainOf: string -> (string, string),
    apexOf: string -> Option<string>,
    resolve: string -> (seq<Addr>, bool))

  datatype Result = Result(
    input: string,
    kind: string,
    resolved: seq<Addr>,
    domainCountry: string,
    domainSuffix: string,
    ipCountry: string,
    asn: int,
    asnOrg: string,
    asnCountry: string,
    certCountry: string,
    ctlogCountry: string,
    registrantCountry: string,
    contentCountry: string,
    waybackCountry: string,
    registry: string,
    finalCountry: string,
    confidence: D.Tier)

  function Blank(input: string, kind: string): Result {
    Result(input, kind, [], "", "", "", 0, "", "", "", "", "", "", "", "", "", D.Unset)
  }

  // ----- the ladder as data -----

  /** The online rungs on the input itself. */
  function InputRungs(input: string, dnsFailed: bool): seq<Call> {
    if dnsFailed then [Call(RDAP, input)]
    else [Call(TLSCert, input), Call(CTLog, input), Call(ContentScan, input), Call(RDAP, input)]
  }

  function ApexRungs(apex: string): seq<Call> {
    [Call(TLSCert, apex), Call(CTLog, apex), Call(ContentScan, apex), Call(RDAP, apex), Call(Wayback, apex)]
  }

  function LastRung(input: string): seq<Call> { [Call(Wayback, input)] }

  /** The registrable parent, when it is not the input itself. */
  function DistinctApex(c: Services, input: string): Option<string> {
    var a := c.apexOf(input);
    if a.Some? && a.value != "" && a.value != input then a else None
  }

  /** The rungs on the registrable parent, when it is distinct. */
  function Middle(c: Services, input: string): seq<Call> {
    var apex := DistinctApex(c, input);
    if apex.Some? then ApexRungs(apex.value) else []
  }

  /** All rungs, top to bottom. */
  function Ladder(c: Services, input: string, dnsFailed: bool): seq<Call> {
    InputRungs(input, dnsFailed) + Middle(c, input) + LastRung(input)
  }

  datatype Hit = Hit(call: Call, cc: string)

  /** What a rung answers: nothing when its enricher is disabled. */
  function Answer(c: Services, call: Call): Option<string> {
    if call.source in c.enabled then c.ask(call) else None
  }

  function Made(c: Services, call: Call): seq<Call> {
    if call.source in c.enabled then [call] else []
  }

  /** Ask the rungs in order until one answers: the calls made and the answer. */
  function Climb(c: Services, rungs: seq<Call>): (seq<Call>, Option<Hit>) {
    if rungs == [] then ([], None)
    else if Answer(c, rungs[0]).Some? then (Made(c, rungs[0]), Some(Hit(rungs[0], Answer(c, rungs[0]).value)))
    else
      var (calls, hit) := Climb(c, rungs[1..]);
      (Made(c, rungs[0]) + calls, hit)
  }

  // ----- offline signals -----

  function FirstPublic(c: Services, addrs: seq<Addr>): Addr {
    if addrs == [] then Invalid
    else if c.isPublic(addrs[0]) then addrs[0]
    else FirstPublic(c, addrs[1..])
  }

  /** The result before the first rung: domain, resolved addresses, IP country. */
  function Base(c: Services, input: string): Result {
    var (domCC, domType) := c.domainOf(input);
    var (addrs, _) := c.resolve(input);
    var first := FirstPublic(c, addrs);
    var (ipCC, registry) := if first.Invalid? then ("", "") else c.lookupIP(first);
    Blank(input, "domain").(resolved := addrs, domainCountry := domCC, domainSuffix := domType,
                            ipCountry := ipCC, registry := registry)
  }

  /** No evidence and no verdict yet. */
  predicate Bare(r: Result) {
    && r.asnOrg == "" && r.asnCountry == "" && r.certCountry == "" && r.ctlogCountry == "" && r.registrantCountry == ""
    && r.contentCountry == "" && r.waybackCountry == "" && r.finalCountry == "" && r.confidence.Unset?
  }

  lemma BaseIsBare(c: Services, input: string)
    ensures Bare(Base(c, input))
  {
  }

  function DnsFailed(c: Services, input: string): bool { c.resolve(input).1 }

  predicate BothKnown(r: Result) { r.domainCountry != "" && r.ipCountry != "" }

  predicate GenericOnIDHost(r: Result) {
    r.domainCountry == "" && (r.domainSuffix == "generic" || r.domainSuffix == "") && r.ipCountry == "ID"
  }

  function Final(r: Result, cc: string, t: D.Tier): Result { r.(finalCountry := cc, confidence := t) }

  /** Domain and IP countries are both known: they agree, or the domain wins with a caveat. */
  function FromBoth(r: Result): Result {
    Final(r, r.domainCountry,
          if r.ipCountry == r.domainCountry then D.High
          else if r.domainCountry == "ID" then D.MediumDomainIDOffshore
          else D.MediumDomainCCMismatch)
  }

  /** ASN and organisation are recorded whenever they are looked up. */
  function WithASN(c: Services, r: Result): Result {
    var first := FirstPublic(c, r.resolved);
    if c.lookupASN.Some? && !first.Invalid? then
      var (n, org) := c.lookupASN.value(first);
      r.(asn := n, asnOrg := org)
    else r
  }

  function Brand(c: Services, r: Result): Option<string> {
    if r.asnOrg == "" then None else c.brand(r.asnOrg)
  }

  /** Record an online answer in its evidence field and tier. Under wayback the record is made only
      where the code has a case for it. */
  function Record(r: Result, h: Hit, wayback: bool): Result {
    match h.call.source
    case TLSCert => Final(r, h.cc, D.HighSSLCert).(certCountry := h.cc)
    case CTLog => Final(r, h.cc, D.HighCTLog).(ctlogCountry := h.cc)
    case ContentScan => Final(r, h.cc, D.HighContent).(contentCountry := h.cc)
    case RDAP => Final(r, h.cc, D.HighRDAPRegistrant).(registrantCountry := h.cc)
    case Wayback =>
      if wayback then Final(r, h.cc, D.MediumWayback).(waybackCountry := h.cc)
      else r.(finalCountry := h.cc)
  }

  /** No rung answered. */
  function FromOneSignal(r: Result, dnsFailed: bool): Result {
    if r.domainCountry != "" && (dnsFailed || r.ipCountry == "") then Final(r, r.domainCountry, D.LowDNSFailed)
    else if !dnsFailed && r.ipCountry != "" then Final(r, r.ipCountry, D.IPOnly)
    else r.(confidence := D.Unknown)
  }

  /** The rungs below the input: apex, then Wayback on the input. mended says whether the apex switch
      of the DNS-failed branch has the Wayback case that the other branch has. */
  function LowerRungs(c: Services, input: string, r: Result, dnsFailed: bool, mended: bool): (Result, seq<Call>) {
    var (apexCalls, apexHit) := Climb(c, Middle(c, input));
    if apexHit.Some? && apexHit.value.cc != "" then (Record(r, apexHit.value, mended || !dnsFailed), apexCalls)
    else
      var (lastCalls, lastHit) := Climb(c, LastRung(input));
      (if lastHit.Some? then Record(r, lastHit.value, true) else FromOneSignal(r, dnsFailed), apexCalls + lastCalls)
  }

  /** The classification of a host, and the calls made for it. */
  function Classified(c: Services, input: string, mended: bool): (Result, seq<Call>) {
    var base := Base(c, input);
    var dnsFailed := DnsFailed(c, input);
    if BothKnown(base) then (FromBoth(base), [])
    else
      var r := if dnsFailed then base else WithASN(c, base);
      if !dnsFailed && Brand(c, r).Some? then
        (Final(r, Brand(c, r).value, D.HighASNBrand).(asnCountry := Brand(c, r).value), [])
      else
        var (calls, hit) := Climb(c, InputRungs(input, dnsFailed));
        if hit.Some? then (Record(r, hit.value, true), calls)
        else if !dnsFailed && GenericOnIDHost(r) then (Final(r, "ID", D.MediumGenericTLDIDHost), calls)
        else
          var (result, more) := LowerRungs(c, input, r, dnsFailed, mended);
          (result, calls + more)
  }

  // ----- the code -----

  /** if c.X != nil { cc, ok := c.X.Lookup(host) } */
  method Try(c: Services, call: Call, ghost before: seq<Call>) returns (a: Option<string>, ghost calls: seq<Call>)
    ensures a == Answer(c, call) && calls == before + Made(c, call)
  {
    a, calls := None, before;
    if call.source in c.enabled {
      calls := calls + [call];
      a := c.ask(call);
    }
  }

  /** How far a climb has come: every rung before k missed, and these calls were made. */
  ghost predicate Climbed(c: Services, rungs: seq<Call>, k: nat, calls: seq<Call>) {
    && k <= |rungs|
    && Climb(c, rungs) == (calls + Climb(c, rungs[k..]).0, Climb(c, rungs[k..]).1)
  }

  lemma ClimbStarts(c: Services, rungs: seq<Call>)
    ensures Climbed(c, rungs, 0, [])
  {
    assert rungs[0..] == rungs;
    assert [] + Climb(c, rungs).0 == Climb(c, rungs).0;
  }

  lemma ClimbNext(c: Services, rungs: seq<Call>, k: nat, calls: seq<Call>)
    requires k < |rungs| && Climbed(c, rungs, k, calls)
    ensures var a, made := Answer(c, rungs[k]), calls + Made(c, rungs[k]);
            && (a.Some? ==> Climb(c, rungs) == (made, Some(Hit(rungs[k], a.value))))
            && (a.None? ==> Climbed(c, rungs, k + 1, made))
            && (a.None? && k + 1 == |rungs| ==> Climb(c, rungs) == (made, None))
  {
    assert rungs[k..][0] == rungs[k] && rungs[k..][1..] == rungs[k + 1..];
    hide Answer, Made;
    var made, more := Made(c, rungs[k]), Climb(c, rungs[k + 1..]).0;
    assert calls + (made + more) == (calls + made) + more;
    if k + 1 == |rungs| {
      assert more == [] && calls + made + more == calls + made;
    }
  }

  /** enrichApex: TLS certificate, CT log, content scan, RDAP, Wayback, in that order. */
  method EnrichApex(c: Services, apex: string) returns (hit: Option<Hit>, ghost calls: seq<Call>)
    ensures hit == Climb(c, ApexRungs(apex)).1
    ensures calls == Climb(c, ApexRungs(apex)).0
  {
    hide Climb, Climbed, Answer, Made;
    ghost var rungs := ApexRungs(apex);
    ClimbStarts(c, rungs);
    var a;
    ClimbNext(c, rungs, 0, []);
    a, calls := Try(c, Call(TLSCert, apex), []);
    if a.Some? {
      hit := Some(Hit(Call(TLSCert, apex), a.value));
      return;
    }
    ClimbNext(c, rungs, 1, calls);
    a, calls := Try(c, Call(CTLog, apex), calls);
    if a.Some? {
      hit := Some(Hit(Call(CTLog, apex), a.value));
      return;
    }
    ClimbNext(c, rungs, 2, calls);
    a, calls := Try(c, Call(ContentScan, apex), calls);
    if a.Some? {
      hit := Some(Hit(Call(ContentScan, apex), a.value));
      return;
    }
    ClimbNext(c, rungs, 3, calls);
    a, calls := Try(c, Call(RDAP, apex), calls);
    if a.Some? {
      hit := Some(Hit(Call(RDAP, apex), a.value));
      return;
    }
    ClimbNext(c, rungs, 4, calls);
    a, calls := Try(c, Call(Wayback, apex), calls);
    if a.Some? {
      hit := Some(Hit(Call(Wayback, apex), a.value));
      return;
    }
    hit := None;
  }

  lemma ClimbNone(c: Services)
    ensures Climb(c, []) == ([], None)
  {
  }

  method AfterDnsFailure(c: Services, input: string, base: Result) returns (r: Result, ghost calls: seq<Call>)
    requires base == Base(c, input) && DnsFailed(c, input) && !BothKnown(base)
    ensures r == Classified(c, input, false).0
    ensures calls == Classified(c, input, false).1
  {
    hide Climb, Climbed, Answer, Made, Base;
    r := base;
    var a;
    ghost var rungs := InputRungs(input, true);
    ClimbStarts(c, rungs);
    ClimbNext(c, rungs, 0, []);
    a, calls := Try(c, Call(RDAP, input), []);
    if a.Some? {
      r := r.(registrantCountry := a.value, finalCountry := a.value, confidence := D.HighRDAPRegistrant);
      return;
    }
    var apex := c.apexOf(input);
    ghost var below: seq<Call> := [];
    ClimbNone(c);
    if apex.Some? && apex.value != "" && apex.value != input {
      var hit;
      hit, below := EnrichApex(c, apex.value);
      if hit.Some? && hit.value.cc != "" {
        var cc := hit.value.cc;
        r := r.(finalCountry := cc);
        match hit.value.call.source {
          case TLSCert => r := r.(confidence := D.HighSSLCert, certCountry := cc);
          case CTLog => r := r.(confidence := D.HighCTLog, ctlogCountry := cc);
          case ContentScan => r := r.(confidence := D.HighContent, contentCountry := cc);
          case RDAP => r := r.(confidence := D.HighRDAPRegistrant, registrantCountry := cc);
          case Wayback =>
        }
        calls := calls + below;
        return;
      }
    }
    ClimbStarts(c, LastRung(input));
    ClimbNext(c, LastRung(input), 0, []);
    ghost var last;
    a, last := Try(c, Call(Wayback, input), []);
    calls := calls + (below + last);
    if a.Some? {
      r := r.(waybackCountry := a.value, finalCountry := a.value, confidence := D.MediumWayback);
      return;
    }
    if r.domainCountry != "" {
      r := r.(finalCountry := r.domainCountry, confidence := D.LowDNSFailed);
      return;
    }
    r := r.(confidence := D.Unknown);
  }

  /** Layers 5 to 7: TLS certificate, CT log, content scan, RDAP on the input. */
  method EnrichInput(c: Services, input: string, base: Result) returns (hit: bool, r: Result, ghost calls: seq<Call>)
    ensures var answer := Climb(c, InputRungs(input, false)).1;
            hit == answer.Some? && r == if answer.Some? then Record(base, answer.value, true) else base
    ensures calls == Climb(c, InputRungs(input, false)).0
  {
    hide Climb, Climbed, Answer, Made;
    r, hit := base, true;
    var a;
    ghost var rungs := InputRungs(input, false);
    ClimbStarts(c, rungs);
    ClimbNext(c, rungs, 0, []);
    a, calls := Try(c, Call(TLSCert, input), []);
    if a.Some? {
      r := r.(certCountry := a.value, finalCountry := a.value, confidence := D.HighSSLCert);
      return;
    }
    ClimbNext(c, rungs, 1, calls);
    a, calls := Try(c, Call(CTLog, input), calls);
    if a.Some? {
      r := r.(ctlogCountry := a.value, finalCountry := a.value, confidence := D.HighCTLog);
      return;
    }
    ClimbNext(c, rungs, 2, calls);
    a, calls := Try(c, Call(ContentScan, input), calls);
    if a.Some? {
      r := r.(contentCountry := a.value, finalCountry := a.value, confidence := D.HighContent);
      return;
    }
    ClimbNext(c, rungs, 3, calls);
    a, calls := Try(c, Call(RDAP, input), calls);
    if a.Some? {
      r := r.(registrantCountry := a.value, finalCountry := a.value, confidence := D.HighRDAPRegistrant);
      return;
    }
    hit := false;
  }

  /** Layers 8 to 10: the apex, Wayback on the input, and the single-signal fallback. */
  method EnrichBelow(c: Services, input: string, base: Result) returns (r: Result, ghost calls: seq<Call>)
    requires !BothKnown(base)
    ensures r == LowerRungs(c, input, base, false, false).0
    ensures calls == LowerRungs(c, input, base, false, false).1
  {
    hide Climb, Climbed, Answer, Made;
    r, calls := base, [];
    ClimbNone(c);
    var apex := c.apexOf(input);
    if apex.Some? && apex.value != "" && apex.value != input {
      var hit;
      hit, calls := EnrichApex(c, apex.value);
      if hit.Some? && hit.value.cc != "" {
        var cc := hit.value.cc;
        r := r.(finalCountry := cc);
        match hit.value.call.source {
          case TLSCert => r := r.(confidence := D.HighSSLCert, certCountry := cc);
          case CTLog => r := r.(confidence := D.HighCTLog, ctlogCountry := cc);
          case ContentScan => r := r.(confidence := D.HighContent, contentCountry := cc);
          case RDAP => r := r.(confidence := D.HighRDAPRegistrant, registrantCountry := cc);
          case Wayback => r := r.(confidence := D.MediumWayback, waybackCountry := cc);
        }
        return;
      }
    }
    ClimbStarts(c, LastRung(input));
    ClimbNext(c, LastRung(input), 0, []);
    var a;
    ghost var last;
    a, last := Try(c, Call(Wayback, input), []);
    calls := calls + last;
    if a.Some? {
      r := r.(waybackCountry := a.value, finalCountry := a.value, confidence := D.MediumWayback);
      return;
    }
    if r.domainCountry != "" && r.ipCountry == "" {
      r := r.(finalCountry := r.domainCountry, confidence := D.LowDNSFailed);
      return;
    }
    if r.ipCountry != "" {
      r := r.(finalCountry := r.ipCountry, confidence := D.IPOnly);
      return;
    }
    r := r.(confidence := D.Unknown);
  }

  method Enrich(c: Services, input: string, base: Result, firstPublic: Addr) returns (r: Result, ghost calls: seq<Call>)
    requires base == Base(c, input) && !DnsFailed(c, input) && !BothKnown(base)
    requires firstPublic == FirstPublic(c, base.resolved)
    ensures r == Classified(c, input, false).0
    ensures calls == Classified(c, input, false).1
  {
    hide Climb, Climbed, Answer, Made, Base;
    BaseIsBare(c, input);
    r, calls := base, [];
    if c.lookupASN.Some? && !firstPublic.Invalid? {
      var (n, org) := c.lookupASN.value(firstPublic);
      r := r.(asn := n, asnOrg := org);
      if org != "" {
        var brand := c.brand(org);
        if brand.Some? {
          r := r.(asnCountry := brand.value, finalCountry := brand.value, confidence := D.HighASNBrand);
          return;
        }
      }
    }
    assert r == WithASN(c, base) && Brand(c, r).None?;
    ghost var enriched := r;
    var hit;
    hit, r, calls := EnrichInput(c, input, r);
    if hit {
      return;
    }
    if r.domainCountry == "" && (r.domainSuffix == "generic" || r.domainSuffix == "") && r.ipCountry == "ID" {
      r := r.(finalCountry := "ID", confidence := D.MediumGenericTLDIDHost);
      return;
    }
    ghost var below;
    r, below := EnrichBelow(c, input, r);
    calls := calls + below;
  }

  method ClassifyHost(c: Services, input: string) returns (r: Result, ghost calls: seq<Call>)
    ensures r == Classified(c, input, false).0
    ensures calls == Classified(c, input, false).1
  {
    calls := [];
    var (domCC, domType) := c.domainOf(input);
    var (addrs, dnsFailed) := c.resolve(input);
    var firstPublic := Invalid;
    var i := 0;
    while i < |addrs|
      invariant 0 <= i <= |addrs| && firstPublic == Invalid
      invariant FirstPublic(c, addrs) == FirstPublic(c, addrs[i..])
    {
      if c.isPublic(addrs[i]) {
        firstPublic := addrs[i];
        break;
      }
      assert addrs[i..][1..] == addrs[i + 1..];
      i := i + 1;
    }
    assert firstPublic == FirstPublic(c, addrs);
    var ipCC, registry := "", "";
    if !firstPublic.Invalid? {
      var (cc, reg) := c.lookupIP(firstPublic);
      ipCC, registry := cc, reg;
    }
    r := Blank(input, "domain").(resolved := addrs, domainCountry := domCC, domainSuffix := domType,
                                 ipCountry := ipCC, registry := registry);
    if domCC != "" && ipCC == domCC {
      r := r.(finalCountry := domCC, confidence := D.High);
      return;
    }
    if domCC != "" && ipCC != "" && domCC != ipCC {
      r := r.(finalCountry := domCC,
              confidence := if domCC == "ID" then D.MediumDomainIDOffshore else D.MediumDomainCCMismatch);
      return;
    }
    if dnsFailed {
      r, calls := AfterDnsFailure(c, input, r);
    } else {
      r, calls := Enrich(c, input, r, firstPublic);
    }
  }

  // ----- evidence -----

  /** The evidence field a tier names. */
  function Evidence(r: Result): string {
    match r.confidence
    case Unset => ""
    case High => if r.domainCountry == r.ipCountry then r.domainCountry else ""
    case HighASNBrand => r.asnCountry
    case HighSSLCert => r.certCountry
    case HighCTLog => r.ctlogCountry
    case HighContent => r.contentCountry
    case HighRDAPRegistrant => r.registrantCountry
    case MediumWayback => r.waybackCountry
    case MediumDomainIDOffshore => r.domainCountry
    case MediumGenericTLDIDHost => r.ipCountry
    case MediumDomainCCMismatch => r.domainCountry
    case LowDNSFailed => r.domainCountry
    case IPOnly => r.ipCountry
    case Unknown => ""
  }

  /** A declared tier; no country exactly when it is unknown; otherwise the country the tier's field holds. */
  predicate Supported(r: Result) {
    && !r.confidence.Unset?
    && (r.finalCountry == "" <==> r.confidence.Unknown?)
    && r.finalCountry == Evidence(r)
  }

  /** Enrichers and the brand table report ok only with a country. */
  ghost predicate Informative(c: Services) {
    (forall call :: c.ask(call) != Some("")) && (forall org :: c.brand(org) != Some(""))
  }

  predicate WaybackIsFirst(c: Services, apex: string) {
    && Answer(c, Call(TLSCert, apex)).None? && Answer(c, Call(CTLog, apex)).None?
    && Answer(c, Call(ContentScan, apex)).None? && Answer(c, Call(RDAP, apex)).None?
    && Answer(c, Call(Wayback, apex)).Some?
  }

  /** DNS failed, not both countries are known, RDAP has nothing on the input, and of the apex
      enrichers Wayback is the first to answer. */
  predicate ApexWaybackAfterDnsFailure(c: Services, input: string) {
    && DnsFailed(c, input) && !BothKnown(Base(c, input))
    && Answer(c, Call(RDAP, input)).None?
    && DistinctApex(c, input).Some? && WaybackIsFirst(c, DistinctApex(c, input).value)
  }

  lemma {:induction false} ClimbAnswers(c: Services, rungs: seq<Call>)
    ensures var (calls, hit) := Climb(c, rungs);
            && (hit.None? <==> forall call <- rungs :: Answer(c, call).None?)
            && (hit.Some? ==> hit.value.call in rungs && Answer(c, hit.value.call) == Some(hit.value.cc))
    decreases |rungs|
  {
    if rungs != [] {
      ClimbAnswers(c, rungs[1..]);
      hide Answer, Made;
      assert rungs == [rungs[0]] + rungs[1..];
    }
  }

  lemma RecordIsSupported(r: Result, h: Hit, wayback: bool)
    requires h.cc != "" && r.confidence.Unset?
    ensures Supported(Record(r, h, wayback)) <==> wayback || !h.call.source.Wayback?
  {
  }

  lemma HitHasCountry(c: Services, rungs: seq<Call>)
    requires Informative(c)
    ensures Climb(c, rungs).1.Some? ==> Climb(c, rungs).1.value.cc != ""
  {
  }

  /** Of the apex rungs Wayback answers exactly when the four before it do not and it does. */
  lemma ApexWayback(c: Services, apex: string)
    ensures var hit := Climb(c, ApexRungs(apex)).1;
            (hit.Some? && hit.value.call.source.Wayback?) <==> WaybackIsFirst(c, apex)
  {
    hide Answer, Made, Climb, Climbed;
    var rungs := ApexRungs(apex);
    ClimbStarts(c, rungs);
    ClimbNext(c, rungs, 0, []);
    var calls := [] + Made(c, rungs[0]);
    if Answer(c, rungs[0]).None? {
      ClimbNext(c, rungs, 1, calls);
      calls := calls + Made(c, rungs[1]);
      if Answer(c, rungs[1]).None? {
        ClimbNext(c, rungs, 2, calls);
        calls := calls + Made(c, rungs[2]);
        if Answer(c, rungs[2]).None? {
          ClimbNext(c, rungs, 3, calls);
          calls := calls + Made(c, rungs[3]);
          if Answer(c, rungs[3]).None? {
            ClimbNext(c, rungs, 4, calls);
          }
        }
      }
    }
  }

  lemma MiddleWayback(c: Services, input: string)
    ensures var hit := Climb(c, Middle(c, input)).1;
            var apex := DistinctApex(c, input);
            (hit.Some? && hit.value.call.source.Wayback?) <==> (apex.Some? && WaybackIsFirst(c, apex.value))
  {
    if DistinctApex(c, input).Some? {
      ApexWayback(c, DistinctApex(c, input).value);
    }
    hide ApexRungs, WaybackIsFirst;
  }

  lemma LowerRungsSupported(c: Services, input: string, r: Result, dnsFailed: bool, mended: bool)
    requires Informative(c) && r.confidence.Unset? && r.finalCountry == "" && !BothKnown(r)
    ensures var hit := Climb(c, Middle(c, input)).1;
            var supported := Supported(LowerRungs(c, input, r, dnsFailed, mended).0);
            supported <==> (mended || !dnsFailed || hit.None? || !hit.value.call.source.Wayback?)
  {
    var rungs := Middle(c, input);
    HitHasCountry(c, rungs);
    HitHasCountry(c, LastRung(input));
    hide Climb, Middle;
    if Climb(c, rungs).1.Some? {
      RecordIsSupported(r, Climb(c, rungs).1.value, mended || !dnsFailed);
    } else if Climb(c, LastRung(input)).1.Some? {
      RecordIsSupported(r, Climb(c, LastRung(input)).1.value, true);
    }
  }

  /** After a DNS failure the only rung on the input is RDAP. */
  lemma InputAnswer(c: Services, input: string)
    ensures Climb(c, InputRungs(input, true)).1.None? <==> Answer(c, Call(RDAP, input)).None?
  {
  }

  /** With the missing Wayback case added to the DNS-failed branch, every host result is supported by its
      evidence. As written, it is if and only if that case is not the one that answers. */
  lemma HostResultIsSupported(c: Services, input: string)
    requires Informative(c)
    ensures Supported(Classified(c, input, true).0)
    ensures Supported(Classified(c, input, false).0) <==> !ApexWaybackAfterDnsFailure(c, input)
  {
    var base := Base(c, input);
    var dnsFailed := DnsFailed(c, input);
    BaseIsBare(c, input);
    hide Base, Climb, Answer, Middle, LowerRungs, DistinctApex, DnsFailed, WaybackIsFirst, Record;
    if !BothKnown(base) {
      var r := if dnsFailed then base else WithASN(c, base);
      if dnsFailed || Brand(c, r).None? {
        InputAnswer(c, input);
        HitHasCountry(c, InputRungs(input, dnsFailed));
        hide InputRungs, WithASN;
        var hit := Climb(c, InputRungs(input, dnsFailed)).1;
        if hit.Some? {
          RecordIsSupported(r, hit.value, true);
        } else {
          LowerRungsSupported(c, input, r, dnsFailed, true);
          LowerRungsSupported(c, input, r, dnsFailed, false);
          MiddleWayback(c, input);
        }
      }
    }
  }

  /** Services of which only Wayback is configured; it knows the apex, and nothing resolves. */
  function OnlyArchived(): Services {
    Services({Wayback}, (call: Call) => if call == Call(Wayback, "example.com") then Some("ID") else None,
             (a: Addr) => ("", ""), None, (org: string) => None, (a: Addr) => false,
             (host: string) => ("", "generic"), (host: string) => Some("example.com"), (host: string) => ([], true))
  }

  /** The missing case is reached: the country comes back without a tier and without its evidence, which
      with the case added are both there. */
  lemma ApexWaybackIsReached()
    ensures var c, input := OnlyArchived(), "www.example.com";
            var r := Classified(c, input, false).0;
            && Informative(c) && ApexWaybackAfterDnsFailure(c, input) && !Supported(r)
            && r.finalCountry == "ID" && r.confidence.Unset? && r.waybackCountry == ""
            && Classified(c, input, true).0 == r.(confidence := D.MediumWayback, waybackCountry := "ID")
  {
    var c, input := OnlyArchived(), "www.example.com";
    var hit := Hit(Call(Wayback, "example.com"), "ID");
    assert DistinctApex(c, input) == Some("example.com") by {
      assert |"www.example.com"| != |"example.com"|;
    }
    var base := Base(c, input);
    assert BothKnown(base) == false && DnsFailed(c, input);
    InputAnswer(c, input);
    MiddleWayback(c, input);
    ClimbAnswers(c, Middle(c, input));
    assert Climb(c, Middle(c, input)).1 == Some(hit);
    hide Climb, InputRungs, Middle, Answer;
  }

  // ----- addresses, and the dispatch -----

  datatype Error = InvalidInput | BogonInput

  predicate NoFields(r: Result) {
    && r.certCountry == "" && r.ctlogCountry == "" && r.contentCountry == ""
    && r.registrantCountry == "" && r.waybackCountry == ""
  }

  /** What a public address comes to: its own signals, no evidence of a host, and the country of the brand
      behind its ASN organisation, or else of the IP. */
  ghost predicate IPOutcome(c: Services, addr: Addr, input: string, r: Result) {
    var a := addr.Unmap();
    var (cc, registry) := c.lookupIP(a);
    var (n, org) := if c.lookupASN.Some? then c.lookupASN.value(a) else (0, "");
    var brand := if org == "" then None else c.brand(org);
    && r.input == input && r.kind == "ip" && r.resolved == [a]
    && r.ipCountry == cc && r.registry == registry && r.asn == n && r.asnOrg == org
    && (r.asnCountry == if brand.Some? then brand.value else "")
    && r.domainCountry == "" && r.domainSuffix == "" && NoFields(r)
    && (r.confidence.HighASNBrand? <==> brand.Some?)
    && (brand.Some? ==> r.finalCountry == brand.value)
    && (brand.None? ==> r.finalCountry == cc && r.confidence == if cc != "" then D.IPOnly else D.Unknown)
  }

  method ClassifyIP(c: Services, addr: Addr, input: string) returns (r: Option<Result>)
    ensures r.None? <==> !c.isPublic(addr.Unmap())
    ensures r.Some? ==> IPOutcome(c, addr, input, r.value)
    ensures r.Some? && (forall org :: c.brand(org) != Some("")) ==> Supported(r.value)
  {
    var a := addr.Unmap();
    if !c.isPublic(a) {
      return None;
    }
    var (cc, registry) := c.lookupIP(a);
    var res := Blank(input, "ip").(resolved := [a], ipCountry := cc, registry := registry);
    if c.lookupASN.Some? {
      var (n, org) := c.lookupASN.value(a);
      res := res.(asn := n, asnOrg := org);
      if org != "" {
        var brand := c.brand(org);
        if brand.Some? {
          return Some(res.(asnCountry := brand.value, finalCountry := brand.value, confidence := D.HighASNBrand));
        }
      }
    }
    if cc != "" {
      res := res.(finalCountry := cc, confidence := D.IPOnly);
    } else {
      res := res.(confidence := D.Unknown);
    }
    return Some(res);
  }

  /** parsed is what netip.ParseAddr makes of the input; hasResolver tells whether one is configured. */
  method Classify(c: Services, input: string, parsed: Option<Addr>, hasResolver: bool)
    returns (res: Wrappers.Result<Result, Error>, ghost calls: seq<Call>)
    ensures input == "" ==> res == Failure(InvalidInput)
    ensures input != "" && parsed.Some? ==>
              if c.isPublic(parsed.value.Unmap()) then res.Success? && IPOutcome(c, parsed.value, input, res.value)
              else res == Failure(BogonInput)
    ensures input != "" && parsed.None? ==>
              res == if hasResolver then Success(Classified(c, input, false).0) else Failure(InvalidInput)
    ensures input != "" && parsed.None? && hasResolver ==> calls == Classified(c, input, false).1
    ensures res.Failure? || parsed.Some? ==> calls == []
    ensures res.Success? && Informative(c) ==>
              (Supported(res.value) <==> parsed.Some? || !ApexWaybackAfterDnsFailure(c, input))
  {
    calls := [];
    if input == "" {
      return Failure(InvalidInput), [];
    }
    if parsed.Some? {
      var r := ClassifyIP(c, parsed.value, input);
      return (if r.Some? then Success(r.value) else Failure(BogonInput)), [];
    }
    if !hasResolver {
      return Failure(InvalidInput), [];
    }
    var r;
    r, calls := ClassifyHost(c, input);
    res := Success(r);
    if Informative(c) {
      HostResultIsSupported(c, input);
    }
    hide Classified, ApexWaybackAfterDnsFailure, Supported;
  }

  // ----- calls -----

  ghost predicate Distinct(calls: seq<Call>) { forall i, j :: 0 <= i < j < |calls| ==> calls[i] != calls[j] }

  /** A climb asks some of its rungs, each once, and goes on only past rungs that missed. */
  lemma {:induction false} ClimbCalls(c: Services, rungs: seq<Call>)
    requires Distinct(rungs)
    ensures var (calls, hit) := Climb(c, rungs);
            && |calls| <= |rungs| && Distinct(calls)
            && (forall call <- calls :: call in rungs && call.source in c.enabled)
            && (forall i :: 0 <= i < |calls| && (i < |calls| - 1 || hit.None?) ==> Answer(c, calls[i]).None?)
    decreases |rungs|
  {
    if rungs != [] {
      var rest := rungs[1..];
      assert forall i :: 0 <= i < |rest| ==> rest[i] == rungs[i + 1];
      ClimbCalls(c, rest);
      assert rungs[0] !in rest;
      assert forall call <- rest :: call in rungs;
      var (calls, hit) := Climb(c, rest);
      hide Answer;
      if Answer(c, rungs[0]).None? {
        assert Climb(c, rungs) == (Made(c, rungs[0]) + calls, hit);
      }
    }
  }

  lemma InputRungsDistinct(input: string, dnsFailed: bool)
    ensures Distinct(InputRungs(input, dnsFailed)) && |InputRungs(input, dnsFailed)| == if dnsFailed then 1 else 4
    ensures forall call <- InputRungs(input, dnsFailed) :: call.host == input && !call.source.Wayback?
  {
  }

  lemma LowerRungsDistinct(c: Services, input: string)
    ensures Distinct(Middle(c, input)) && |Middle(c, input)| <= 5 && Distinct(LastRung(input)) && |LastRung(input)| == 1
    ensures forall call <- Middle(c, input) :: call.host != input
    ensures forall call <- LastRung(input) :: call.host == input && call.source.Wayback?
  {
  }

  /** A miss, or an apex enricher that says ok without a country, which counts as one. */
  predicate PassedOver(c: Services, input: string, call: Call) {
    Answer(c, call).None? || (call.host != input && Answer(c, call) == Some(""))
  }

  /** What holds of the calls of one classification. */
  ghost predicate Frugal(c: Services, input: string, calls: seq<Call>, limit: nat) {
    && |calls| <= limit && Distinct(calls)
    && (forall call <- calls :: call.source in c.enabled)
    && (forall i :: 0 <= i < |calls| - 1 ==> PassedOver(c, input, calls[i]))
  }

  ghost predicate AllPassedOver(c: Services, input: string, calls: seq<Call>) {
    forall call <- calls :: PassedOver(c, input, call)
  }

  /** Calls that were all passed over, followed by calls to other rungs. */
  lemma JoinFrugal(c: Services, input: string, a: seq<Call>, b: seq<Call>, m: nat, n: nat)
    requires Frugal(c, input, a, m) && Frugal(c, input, b, n) && AllPassedOver(c, input, a)
    requires forall x <- a, y <- b :: x != y
    ensures Frugal(c, input, a + b, m + n)
    ensures AllPassedOver(c, input, b) ==> AllPassedOver(c, input, a + b)
  {
    hide PassedOver;
    var all := a + b;
    assert forall i :: 0 <= i < |all| ==> all[i] == if i < |a| then a[i] else b[i - |a|];
    assert forall i :: 0 <= i < |a| ==> a[i] in a;
    assert forall i :: 0 <= i < |b| ==> b[i] in b;
  }

  /** The last call of a climb that hits is the one that answered. */
  lemma {:induction false} ClimbLast(c: Services, rungs: seq<Call>)
    ensures var (calls, hit) := Climb(c, rungs);
            hit.Some? ==>
              && calls != [] && calls[|calls| - 1] == hit.value.call
              && Answer(c, hit.value.call) == Some(hit.value.cc)
    decreases |rungs|
  {
    if rungs != [] {
      ClimbLast(c, rungs[1..]);
    }
  }

  lemma ClimbFrugal(c: Services, input: string, rungs: seq<Call>)
    requires Distinct(rungs)
    ensures var (calls, hit) := Climb(c, rungs);
            && Frugal(c, input, calls, |rungs|)
            && (hit.None? || (hit.value.cc == "" && forall call <- rungs :: call.host != input) ==>
                  AllPassedOver(c, input, calls))
  {
    ClimbCalls(c, rungs);
    ClimbLast(c, rungs);
    hide Climb, Answer;
  }

  lemma LowerCallsFrugal(c: Services, input: string, r: Result, dnsFailed: bool, mended: bool)
    ensures var calls := LowerRungs(c, input, r, dnsFailed, mended).1;
            Frugal(c, input, calls, 6) && forall call <- calls :: call.host != input || call.source.Wayback?
  {
    var rungs := Middle(c, input);
    var (apexCalls, apexHit) := Climb(c, rungs);
    var last := Climb(c, LastRung(input)).0;
    LowerRungsDistinct(c, input);
    ClimbFrugal(c, input, rungs);
    ClimbCalls(c, rungs);
    ClimbFrugal(c, input, LastRung(input));
    ClimbCalls(c, LastRung(input));
    hide Climb, Answer, Middle, LastRung, Record, PassedOver, Distinct;
    assert forall call <- apexCalls :: call.host != input;
    if !(apexHit.Some? && apexHit.value.cc != "") {
      JoinFrugal(c, input, apexCalls, last, 5, 1);
    }
  }

  lemma TopCallsFrugal(c: Services, input: string, r: Result, dnsFailed: bool, mended: bool)
    ensures var (first, hit) := Climb(c, InputRungs(input, dnsFailed));
            var limit := if dnsFailed then 7 else 10;
            && Frugal(c, input, first, limit)
            && (hit.None? ==> Frugal(c, input, first + LowerRungs(c, input, r, dnsFailed, mended).1, limit))
  {
    var rungs := InputRungs(input, dnsFailed);
    InputRungsDistinct(input, dnsFailed);
    ClimbCalls(c, rungs);
    ClimbFrugal(c, input, rungs);
    LowerCallsFrugal(c, input, r, dnsFailed, mended);
    var (first, hit) := Climb(c, rungs);
    var below := LowerRungs(c, input, r, dnsFailed, mended).1;
    hide Climb, Answer, InputRungs, LowerRungs, PassedOver, Distinct, Middle, LastRung;
    if hit.None? {
      JoinFrugal(c, input, first, below, |rungs|, 6);
    }
  }

  lemma NoneIsFrugal(c: Services, input: string)
    ensures Frugal(c, input, [], 7) && Frugal(c, input, [], 10)
  {
  }

  lemma RecordIsNoBrand(r: Result, hit: Option<Hit>)
    ensures hit.Some? ==> !Record(r, hit.value, true).confidence.HighASNBrand?
  {
  }

  lemma NoBrandBelow(c: Services, input: string, r: Result, dnsFailed: bool, mended: bool)
    requires r.confidence.Unset?
    ensures !LowerRungs(c, input, r, dnsFailed, mended).0.confidence.HighASNBrand?
  {
  }

  /** Whatever the services answer: no service is asked twice about the same host, at most 10 online calls
      are made, at most 7 after a DNS failure, none when domain and IP country are both known or the ASN
      brand decides, and each call but the last was passed over before the next was made. */
  lemma CallsAreFrugal(c: Services, input: string, mended: bool)
    ensures var calls := Classified(c, input, mended).1;
            && Frugal(c, input, calls, if DnsFailed(c, input) then 7 else 10)
            && (BothKnown(Base(c, input)) ==> calls == [])
            && (Classified(c, input, mended).0.confidence.HighASNBrand? ==> calls == [])
  {
    var dnsFailed := DnsFailed(c, input);
    var base := Base(c, input);
    var r := if dnsFailed then base else WithASN(c, base);
    BaseIsBare(c, input);
    TopCallsFrugal(c, input, r, dnsFailed, mended);
    NoBrandBelow(c, input, r, dnsFailed, mended);
    NoneIsFrugal(c, input);
    RecordIsNoBrand(r, Climb(c, InputRungs(input, dnsFailed)).1);
    hide Climb, InputRungs, LowerRungs, Base, DnsFailed, Frugal, Record, WithASN, GenericOnIDHost, Brand;
  }

  lemma {:induction false} ClimbConcat(c: Services, a: seq<Call>, b: seq<Call>)
    ensures Climb(c, a + b) == if Climb(c, a).1.Some? then Climb(c, a)
                               else (Climb(c, a).0 + Climb(c, b).0, Climb(c, b).1)
    decreases |a|
  {
    hide Answer, Made;
    if a == [] {
      assert a + b == b;
      assert [] + Climb(c, b).0 == Climb(c, b).0;
    } else {
      assert (a + b)[1..] == a[1..] + b;
      ClimbConcat(c, a[1..], b);
      var made, x, y := Made(c, a[0]), Climb(c, a[1..]).0, Climb(c, b).0;
      assert made + (x + y) == (made + x) + y;
    }
  }

  function LowerLadder(c: Services, input: string): seq<Call> { Middle(c, input) + LastRung(input) }

  lemma LowerIsOneClimb(c: Services, input: string, r: Result, dnsFailed: bool, mended: bool)
    requires Informative(c)
    ensures var (result, calls) := LowerRungs(c, input, r, dnsFailed, mended);
            var (climbed, hit) := Climb(c, LowerLadder(c, input));
            calls == climbed && (hit.Some? ==> result.finalCountry == hit.value.cc)
  {
    var mid := Middle(c, input);
    ClimbConcat(c, mid, LastRung(input));
    HitHasCountry(c, mid);
    hide Climb, Middle, LastRung, DistinctApex;
  }

  /** The rungs that apply: a generic domain on an Indonesian host is settled after those on the input. */
  function Applicable(c: Services, input: string): seq<Call> {
    if !DnsFailed(c, input) && GenericOnIDHost(Base(c, input)) then InputRungs(input, false)
    else Ladder(c, input, DnsFailed(c, input))
  }

  lemma LadderSplits(c: Services, input: string, dnsFailed: bool)
    ensures Ladder(c, input, dnsFailed) == InputRungs(input, dnsFailed) + LowerLadder(c, input)
  {
    hide InputRungs, Middle, LastRung;
  }

  lemma ASNIsNoSignal(c: Services, r: Result)
    ensures GenericOnIDHost(WithASN(c, r)) == GenericOnIDHost(r)
  {
  }

  /** With services that report ok only with a country, the nested conditionals of the code are one
      climb of the applicable ladder: the calls are its calls and the first answer decides. */
  lemma LadderIsOneClimb(c: Services, input: string, mended: bool)
    requires Informative(c) && !BothKnown(Base(c, input))
    requires DnsFailed(c, input) || Brand(c, WithASN(c, Base(c, input))).None?
    ensures var (r, calls) := Classified(c, input, mended);
            var (climbed, hit) := Climb(c, Applicable(c, input));
            calls == climbed && (hit.Some? ==> r.finalCountry == hit.value.cc)
  {
    hide Climb, InputRungs, Middle, LastRung, Base, DnsFailed, DistinctApex, LowerRungs, WithASN, Ladder;
    hide GenericOnIDHost;
    var dnsFailed := DnsFailed(c, input);
    var base := Base(c, input);
    var r := if dnsFailed then base else WithASN(c, base);
    LowerIsOneClimb(c, input, r, dnsFailed, mended);
    ClimbConcat(c, InputRungs(input, dnsFailed), LowerLadder(c, input));
    LadderSplits(c, input, dnsFailed);
    ASNIsNoSignal(c, base);
  }

  // ----- the calls, whatever the services answer -----

  /** The rungs whose enricher is enabled. */
  function EnabledOf(c: Services, rungs: seq<Call>): seq<Call> {
    if rungs == [] then [] else Made(c, rungs[0]) + EnabledOf(c, rungs[1..])
  }

  lemma {:induction false} EnabledConcat(c: Services, a: seq<Call>, b: seq<Call>)
    ensures EnabledOf(c, a + b) == EnabledOf(c, a) + EnabledOf(c, b)
    decreases |a|
  {
    hide Made;
    if a == [] {
      assert a + b == b;
    } else {
      assert (a + b)[1..] == a[1..] + b;
      EnabledConcat(c, a[1..], b);
      var made, x, y := Made(c, a[0]), EnabledOf(c, a[1..]), EnabledOf(c, b);
      assert made + (x + y) == (made + x) + y;
    }
  }

  /** A climb asks its first n rungs and misses on all of them, but for the last when it hits. */
  lemma {:induction false} ClimbReach(c: Services, rungs: seq<Call>) returns (n: nat)
    ensures var (calls, hit) := Climb(c, rungs);
            && n <= |rungs| && calls == EnabledOf(c, rungs[..n])
            && (forall j :: 0 <= j < n - 1 ==> Answer(c, rungs[j]).None?)
            && (hit.None? ==> n == |rungs| && forall j :: 0 <= j < n ==> Answer(c, rungs[j]).None?)
            && (hit.Some? ==> n > 0 && rungs[n - 1] == hit.value.call && Answer(c, rungs[n - 1]) == Some(hit.value.cc))
    decreases |rungs|
  {
    if rungs == [] {
      return 0;
    }
    hide Answer, Made;
    if Answer(c, rungs[0]).Some? {
      n := 1;
      assert rungs[..1][1..] == [];
      assert Made(c, rungs[0]) + [] == Made(c, rungs[0]);
    } else {
      var m := ClimbReach(c, rungs[1..]);
      n := m + 1;
      var hit := Climb(c, rungs).1;
      assert hit == Climb(c, rungs[1..]).1;
      assert rungs[..n][1..] == rungs[1..][..m];
      assert Climb(c, rungs).0 == EnabledOf(c, rungs[..n]);
      hide Climb, EnabledOf;
      forall j | 0 <= j < n && (j < n - 1 || hit.None?)
        ensures Answer(c, rungs[j]).None?
      {
        if j > 0 {
          assert rungs[1..][j - 1] == rungs[j];
        }
      }
    }
  }

  /** The rungs visited, when those from a to b are left out and the climb ends before e. */
  function Path(ladder: seq<Call>, a: nat, b: nat, e: nat): seq<Call>
    requires a <= b <= e <= |ladder|
  {
    ladder[..a] + ladder[b..e]
  }

  /** Every rung of a path but the last was passed over, and the last too unless the path ends early. */
  ghost predicate GoesOn(c: Services, input: string, path: seq<Call>, ended: bool) {
    && (forall j :: 0 <= j < |path| - 1 ==> PassedOver(c, input, path[j]))
    && (ended || (path != [] && !PassedOver(c, input, path[|path| - 1])))
  }

  /** Left out are none, or rungs on the apex after a rung on the apex that answered without a country. */
  ghost predicate LeavesOut(c: Services, input: string, ladder: seq<Call>, a: nat, b: nat)
    requires a <= b <= |ladder|
  {
    && (a < b ==> a > 0 && ladder[a - 1].host != input && Answer(c, ladder[a - 1]) == Some(""))
    && forall j :: a <= j < b ==> ladder[j].host != input
  }

  /** Once a rung on the apex has answered, with a country or without, no other is visited. */
  ghost predicate OneApexAnswer(c: Services, input: string, path: seq<Call>) {
    forall i, j :: 0 <= i < j < |path| && path[i].host != input && path[j].host != input ==>
      Answer(c, path[i]).None?
  }

  /** The calls are the enabled ones of a path down the ladder that goes on past the rungs that were
      passed over, takes no more than one answer from the apex, and leaves out nothing else. */
  ghost predicate Follows(c: Services, input: string, ladder: seq<Call>, calls: seq<Call>, a: nat, b: nat, e: nat) {
    && a <= b <= e <= |ladder|
    && calls == EnabledOf(c, Path(ladder, a, b, e))
    && GoesOn(c, input, Path(ladder, a, b, e), e == |ladder|)
    && OneApexAnswer(c, input, Path(ladder, a, b, e))
    && LeavesOut(c, input, ladder, a, b)
  }

  /** The last call decides if it was not passed over; otherwise the country is the fallback. */
  ghost predicate Decided(c: Services, input: string, country: string, calls: seq<Call>, fallback: string) {
    if calls != [] && !PassedOver(c, input, calls[|calls| - 1])
    then Answer(c, calls[|calls| - 1]) == Some(country)
    else country == fallback
  }

  ghost predicate AllMissed(c: Services, rungs: seq<Call>) {
    forall j :: 0 <= j < |rungs| ==> Answer(c, rungs[j]).None?
  }

  /** The front of rungs on the input, up to the first that answers. */
  lemma FrontGoesOn(c: Services, input: string, rungs: seq<Call>, n: nat)
    requires n <= |rungs| && forall call <- rungs :: call.host == input
    requires forall j :: 0 <= j < n - 1 ==> Answer(c, rungs[j]).None?
    requires n == |rungs| || (0 < n && Answer(c, rungs[n - 1]).Some?)
    ensures GoesOn(c, input, rungs[..n], n == |rungs|) && OneApexAnswer(c, input, rungs[..n])
  {
    hide Answer;
    var path := rungs[..n];
    forall j | 0 <= j < n
      ensures path[j].host == input && path[j] == rungs[j]
    {
      assert rungs[j] in rungs;
    }
  }

  /** One climb down rungs on the input. */
  lemma ClimbFollows(c: Services, input: string, rungs: seq<Call>) returns (n: nat)
    requires forall call <- rungs :: call.host == input
    ensures Follows(c, input, rungs, Climb(c, rungs).0, n, n, n)
    ensures Climb(c, rungs).1.None? ==>
              n == |rungs| && Climb(c, rungs).0 == EnabledOf(c, rungs) && AllMissed(c, rungs)
    ensures Climb(c, rungs).1.Some? ==> 0 < n && Answer(c, rungs[n - 1]).Some?
  {
    n := ClimbReach(c, rungs);
    assert Path(rungs, n, n, n) == rungs[..n];
    hide Climb, EnabledOf, Path, Answer, GoesOn, OneApexAnswer;
    FrontGoesOn(c, input, rungs, n);
    assert n == |rungs| ==> rungs[..n] == rungs;
  }

  lemma GoesOnAfter(c: Services, input: string, top: seq<Call>, path: seq<Call>, ended: bool)
    requires AllMissed(c, top) && GoesOn(c, input, path, ended)
    ensures GoesOn(c, input, top + path, ended)
  {
    hide Answer;
    assert forall j :: 0 <= j < |top| ==> PassedOver(c, input, top[j]);
    hide PassedOver;
    var all := top + path;
    assert forall j :: 0 <= j < |top| ==> all[j] == top[j];
    assert forall j :: |top| <= j < |all| ==> all[j] == path[j - |top|];
  }

  lemma OneApexAnswerAfter(c: Services, input: string, top: seq<Call>, path: seq<Call>)
    requires AllMissed(c, top) && OneApexAnswer(c, input, path)
    ensures OneApexAnswer(c, input, top + path)
  {
    hide Answer;
    var all := top + path;
    forall i, j | 0 <= i < j < |all| && all[i].host != input && all[j].host != input
      ensures Answer(c, all[i]).None?
    {
      if i < |top| {
        assert all[i] == top[i];
      } else {
        assert all[i] == path[i - |top|] && all[j] == path[j - |top|];
      }
    }
  }

  lemma LeavesOutAfter(c: Services, input: string, top: seq<Call>, ladder: seq<Call>, a: nat, b: nat)
    requires a <= b <= |ladder| && LeavesOut(c, input, ladder, a, b)
    ensures LeavesOut(c, input, top + ladder, |top| + a, |top| + b)
  {
    hide Answer;
    var all := top + ladder;
    assert forall j :: |top| <= j < |all| ==> all[j] == ladder[j - |top|];
  }

  lemma PathAfter(top: seq<Call>, ladder: seq<Call>, a: nat, b: nat, e: nat)
    requires a <= b <= e <= |ladder|
    ensures Path(top + ladder, |top| + a, |top| + b, |top| + e) == top + Path(ladder, a, b, e)
  {
  }

  /** Rungs that all missed, and then the rest of the ladder. */
  lemma FollowsAfter(c: Services, input: string, top: seq<Call>, ladder: seq<Call>, calls: seq<Call>,
                     a: nat, b: nat, e: nat)
    requires Follows(c, input, ladder, calls, a, b, e) && AllMissed(c, top)
    ensures Follows(c, input, top + ladder, EnabledOf(c, top) + calls, |top| + a, |top| + b, |top| + e)
  {
    var path := Path(ladder, a, b, e);
    PathAfter(top, ladder, a, b, e);
    EnabledConcat(c, top, path);
    GoesOnAfter(c, input, top, path, e == |ladder|);
    OneApexAnswerAfter(c, input, top, path);
    LeavesOutAfter(c, input, top, ladder, a, b);
    hide EnabledOf, Path, GoesOn, OneApexAnswer, LeavesOut, AllMissed;
  }

  lemma EndsOnApex(c: Services, input: string, mid: seq<Call>, last: seq<Call>, m: nat)
    requires 0 < m <= |mid| && Answer(c, mid[m - 1]).Some? && Answer(c, mid[m - 1]) != Some("")
    requires forall j :: 0 <= j < m - 1 ==> Answer(c, mid[j]).None?
    ensures Follows(c, input, mid + last, EnabledOf(c, mid[..m]), m, m, m)
  {
    hide Answer, EnabledOf;
    assert Path(mid + last, m, m, m) == mid[..m];
  }

  lemma EndsOnInputGoesOn(c: Services, input: string, mid: seq<Call>, last: seq<Call>, m: nat)
    requires m <= |mid| && |last| == 1 && forall j :: 0 <= j < |mid| ==> mid[j].host != input
    requires forall j :: 0 <= j < m - 1 ==> Answer(c, mid[j]).None?
    requires m > 0 ==> Answer(c, mid[m - 1]) == Some("") || Answer(c, mid[m - 1]).None?
    ensures GoesOn(c, input, mid[..m] + last, true)
  {
    hide Answer;
    var path := mid[..m] + last;
    forall j | 0 <= j < |path| - 1
      ensures PassedOver(c, input, path[j])
    {
      assert path[j] == mid[j];
    }
  }

  lemma EndsOnInputAnswers(c: Services, input: string, mid: seq<Call>, last: seq<Call>, m: nat)
    requires m <= |mid| && |last| == 1 && last[0].host == input
    requires forall j :: 0 <= j < m - 1 ==> Answer(c, mid[j]).None?
    ensures OneApexAnswer(c, input, mid[..m] + last)
  {
    hide Answer;
    var path := mid[..m] + last;
    forall i, j | 0 <= i < j < |path| && path[i].host != input && path[j].host != input
      ensures Answer(c, path[i]).None?
    {
      assert path[m] == last[0];
      assert path[i] == mid[i];
    }
  }

  lemma EndsOnInput(c: Services, input: string, mid: seq<Call>, last: seq<Call>, m: nat)
    requires m <= |mid| && |last| == 1 && last[0].host == input
    requires forall j :: 0 <= j < |mid| ==> mid[j].host != input
    requires forall j :: 0 <= j < m - 1 ==> Answer(c, mid[j]).None?
    requires (m > 0 && Answer(c, mid[m - 1]) == Some(""))
             || (m == |mid| && (m > 0 ==> Answer(c, mid[m - 1]).None?))
    ensures Follows(c, input, mid + last, EnabledOf(c, mid[..m]) + EnabledOf(c, last), m, |mid|, |mid| + 1)
  {
    EnabledConcat(c, mid[..m], last);
    var path := mid[..m] + last;
    assert Path(mid + last, m, |mid|, |mid| + 1) == path;
    hide Answer, EnabledOf, Path;
    EndsOnInputGoesOn(c, input, mid, last, m);
    EndsOnInputAnswers(c, input, mid, last, m);
    assert LeavesOut(c, input, mid + last, m, |mid|) by {
      assert forall j :: 0 <= j < |mid| ==> (mid + last)[j] == mid[j];
    }
    hide GoesOn, OneApexAnswer, LeavesOut;
  }

  /** The apex rungs, of which a hit without a country leaves out those after it, and the last rung. */
  lemma LowerFollows(c: Services, input: string, r: Result, dnsFailed: bool, mended: bool)
    returns (a: nat, b: nat, e: nat)
    ensures Follows(c, input, LowerLadder(c, input), LowerRungs(c, input, r, dnsFailed, mended).1, a, b, e)
  {
    var mid, last := Middle(c, input), LastRung(input);
    LowerRungsDistinct(c, input);
    var (calls, hit) := Climb(c, mid);
    var m := ClimbReach(c, mid);
    assert Climb(c, last).0 == EnabledOf(c, last) by {
      var n := ClimbReach(c, last);
      assert last[..1] == last;
    }
    hide Climb, EnabledOf, Answer, Middle, LastRung, DistinctApex, Record, FromOneSignal, Follows;
    assert forall j :: 0 <= j < |mid| ==> mid[j] in mid;
    if hit.Some? && hit.value.cc != "" {
      a, b, e := m, m, m;
      EndsOnApex(c, input, mid, last, m);
    } else {
      a, b, e := m, |mid|, |mid| + 1;
      EndsOnInput(c, input, mid, last, m);
    }
  }

  /** A hit on the input ends the climb, whatever rungs are below. */
  lemma TopEnds(c: Services, input: string, top: seq<Call>, below: seq<Call>, calls: seq<Call>, n: nat)
    requires Follows(c, input, top, calls, n, n, n) && 0 < n && Answer(c, top[n - 1]).Some?
    requires forall call <- top :: call.host == input
    ensures Follows(c, input, top + below, calls, n, n, n)
  {
    hide Answer, EnabledOf, OneApexAnswer;
    assert Path(top + below, n, n, n) == Path(top, n, n, n);
  }

  /** Calls that were all passed over do not change what decides. */
  lemma DecidedAfter(c: Services, input: string, country: string, a: seq<Call>, b: seq<Call>, fallback: string)
    requires AllPassedOver(c, input, a) && Decided(c, input, country, b, fallback)
    ensures Decided(c, input, country, a + b, fallback)
  {
    hide Answer, PassedOver;
    var all := a + b;
    if b != [] {
      assert all[|all| - 1] == b[|b| - 1];
    } else if a != [] {
      assert all[|all| - 1] == a[|a| - 1] && a[|a| - 1] in a;
    }
  }

  lemma HitDecides(c: Services, input: string, rungs: seq<Call>, fallback: string)
    requires Climb(c, rungs).1.Some? && (Climb(c, rungs).1.value.cc != "" || forall call <- rungs :: call.host == input)
    ensures Decided(c, input, Climb(c, rungs).1.value.cc, Climb(c, rungs).0, fallback)
  {
    ClimbLast(c, rungs);
    ClimbAnswers(c, rungs);
    hide Climb, Answer;
  }

  lemma RecordCountry(r: Result, h: Hit, wayback: bool)
    ensures Record(r, h, wayback).finalCountry == h.cc
  {
  }

  lemma NoneDecides(c: Services, input: string, calls: seq<Call>, fallback: string)
    requires AllPassedOver(c, input, calls)
    ensures Decided(c, input, fallback, calls, fallback)
  {
    assert calls != [] ==> calls[|calls| - 1] in calls;
  }

  lemma LowerDecides(c: Services, input: string, r: Result, dnsFailed: bool, mended: bool)
    ensures var (result, calls) := LowerRungs(c, input, r, dnsFailed, mended);
            Decided(c, input, result.finalCountry, calls, FromOneSignal(r, dnsFailed).finalCountry)
  {
    var mid, last := Middle(c, input), LastRung(input);
    LowerRungsDistinct(c, input);
    ClimbFrugal(c, input, mid);
    ClimbFrugal(c, input, last);
    var fallback := FromOneSignal(r, dnsFailed).finalCountry;
    var (apexCalls, apexHit) := Climb(c, mid);
    var (lastCalls, lastHit) := Climb(c, last);
    hide Climb, Middle, LastRung, DistinctApex, Distinct, FromOneSignal, Answer, Frugal, Decided, PassedOver;
    hide AllPassedOver, Record;
    if apexHit.Some? && apexHit.value.cc != "" {
      RecordCountry(r, apexHit.value, mended || !dnsFailed);
      HitDecides(c, input, mid, fallback);
    } else {
      if lastHit.Some? {
        RecordCountry(r, lastHit.value, true);
        HitDecides(c, input, last, fallback);
      } else {
        NoneDecides(c, input, lastCalls, fallback);
      }
      DecidedAfter(c, input, if lastHit.Some? then lastHit.value.cc else fallback, apexCalls, lastCalls, fallback);
    }
  }

  /** Whatever the services answer, and for the code as written as for the mended one: the calls follow the
      ladder, and the country is the answer of the last call if that call was not passed over. If all were,
      it is Indonesia for a generic domain on an Indonesian host, and else that of the single signal. */
  lemma CallsFollowLadder(c: Services, input: string, mended: bool) returns (a: nat, b: nat, e: nat)
    requires !BothKnown(Base(c, input))
    requires DnsFailed(c, input) || Brand(c, WithASN(c, Base(c, input))).None?
    ensures Follows(c, input, Applicable(c, input), Classified(c, input, mended).1, a, b, e)
    ensures var base := Base(c, input);
            var dnsFailed := DnsFailed(c, input);
            Decided(c, input, Classified(c, input, mended).0.finalCountry, Classified(c, input, mended).1,
                    if !dnsFailed && GenericOnIDHost(base) then "ID" else FromOneSignal(base, dnsFailed).finalCountry)
  {
    var dnsFailed := DnsFailed(c, input);
    var base := Base(c, input);
    var r := if dnsFailed then base else WithASN(c, base);
    var top := InputRungs(input, dnsFailed);
    InputRungsDistinct(input, dnsFailed);
    BaseIsBare(c, input);
    ASNIsNoSignal(c, base);
    LadderSplits(c, input, dnsFailed);
    ClimbFrugal(c, input, top);
    var (calls, hit) := Climb(c, top);
    var n := ClimbFollows(c, input, top);
    var (result, below) := LowerRungs(c, input, r, dnsFailed, mended);
    var fallback := if !dnsFailed && GenericOnIDHost(base) then "ID" else FromOneSignal(base, dnsFailed).finalCountry;
    assert FromOneSignal(r, dnsFailed).finalCountry == FromOneSignal(base, dnsFailed).finalCountry;
    hide Climb, InputRungs, Base, DnsFailed, LowerRungs, WithASN, Ladder, Follows, GenericOnIDHost, Distinct;
    hide Decided, AllPassedOver, AllMissed, FromOneSignal, Frugal, PassedOver, Answer, EnabledOf;
    a, b, e := n, n, n;
    hide LowerLadder, WithASN, Brand, Record, Final, BothKnown, FromBoth;
    if hit.Some? {
      RecordCountry(r, hit.value, true);
      TopEnds(c, input, top, LowerLadder(c, input), calls, n);
      HitDecides(c, input, top, fallback);
    } else if !dnsFailed && GenericOnIDHost(r) {
      NoneDecides(c, input, calls, fallback);
    } else {
      a, b, e := LowerFollows(c, input, r, dnsFailed, mended);
      FollowsAfter(c, input, top, LowerLadder(c, input), below, a, b, e);
      a, b, e := n + a, n + b, n + e;
      LowerDecides(c, input, r, dnsFailed, mended);
      DecidedAfter(c, input, result.finalCountry, calls, below, fallback);
    }
  }

  lemma {:induction false} EnabledMember(c: Services, rungs: seq<Call>, j: nat)
    requires j < |rungs| && rungs[j].source in c.enabled
    ensures rungs[j] in EnabledOf(c, rungs)
    decreases |rungs|
  {
    if j > 0 {
      EnabledMember(c, rungs[1..], j - 1);
    }
  }

  /** The i-th call is that of some rung, and the calls before it are those of the rungs before it. */
  lemma {:induction false} EnabledAt(c: Services, rungs: seq<Call>, i: nat) returns (p: nat)
    requires i < |EnabledOf(c, rungs)|
    ensures p < |rungs| && rungs[p] == EnabledOf(c, rungs)[i] && EnabledOf(c, rungs)[..i] == EnabledOf(c, rungs[..p])
    ensures rungs[p].source in c.enabled
    decreases |rungs|
  {
    var made, rest := Made(c, rungs[0]), EnabledOf(c, rungs[1..]);
    assert EnabledOf(c, rungs) == made + rest;
    if i < |made| {
      p := 0;
      assert EnabledOf(c, rungs)[..0] == [];
    } else {
      var q := EnabledAt(c, rungs[1..], i - |made|);
      p := q + 1;
      assert rungs[..p][1..] == rungs[1..][..q];
      assert (made + rest)[..i] == made + rest[..i - |made|];
    }
  }

  /** A rung on the apex below a rung on the apex that answered without a country. */
  ghost predicate Excused(c: Services, input: string, ladder: seq<Call>, j: nat)
    requires j < |ladder|
  {
    && ladder[j].host != input
    && exists i :: 0 <= i < j && ladder[i].host != input && Answer(c, ladder[i]) == Some("")
  }

  lemma LeftOutIsExcused(c: Services, input: string, ladder: seq<Call>, a: nat, b: nat, j: nat)
    requires a <= j < b <= |ladder| && LeavesOut(c, input, ladder, a, b)
    ensures Excused(c, input, ladder, j)
  {
    hide Answer;
    assert ladder[a - 1].host != input;
  }

  /** Where the rung at position j of the ladder is on the path. */
  function OnPath(a: nat, b: nat, j: nat): nat
    requires a <= b && !(a <= j < b)
  {
    if j < a then j else j - b + a
  }

  lemma PathAt(ladder: seq<Call>, a: nat, b: nat, e: nat, j: nat)
    requires a <= b <= e <= |ladder| && j < e && !(a <= j < b)
    ensures OnPath(a, b, j) < |Path(ladder, a, b, e)| && Path(ladder, a, b, e)[OnPath(a, b, j)] == ladder[j]
  {
  }

  /** A rung above the p-th of the path. */
  lemma AboveOnPath(c: Services, input: string, ladder: seq<Call>, calls: seq<Call>, a: nat, b: nat, e: nat,
                    p: nat, j: nat)
    requires Follows(c, input, ladder, calls, a, b, e) && p < |Path(ladder, a, b, e)|
    requires j < e && (a <= j < b || OnPath(a, b, j) < p) && ladder[j].source in c.enabled
    ensures || (ladder[j] in EnabledOf(c, Path(ladder, a, b, e)[..p]) && PassedOver(c, input, ladder[j]))
            || Excused(c, input, ladder, j)
  {
    hide EnabledOf, Excused, LeavesOut, PassedOver, Path;
    if a <= j < b {
      LeftOutIsExcused(c, input, ladder, a, b, j);
    } else {
      var path := Path(ladder, a, b, e);
      PathAt(ladder, a, b, e, j);
      assert path[..p][OnPath(a, b, j)] == ladder[j];
      EnabledMember(c, path[..p], OnPath(a, b, j));
    }
  }

  /** Every enabled rung above a call was asked before it and passed over, or is excused. */
  ghost predicate NoneSkipped(c: Services, input: string, ladder: seq<Call>, before: seq<Call>, k: nat)
    requires k <= |ladder|
  {
    forall j :: 0 <= j < k && ladder[j].source in c.enabled ==>
      (ladder[j] in before && PassedOver(c, input, ladder[j])) || Excused(c, input, ladder, j)
  }

  lemma FollowersSkipNone(c: Services, input: string, ladder: seq<Call>, calls: seq<Call>, a: nat, b: nat, e: nat,
                          i: nat)
    returns (k: nat)
    requires Follows(c, input, ladder, calls, a, b, e) && i < |calls|
    ensures k < |ladder| && ladder[k] == calls[i] && NoneSkipped(c, input, ladder, calls[..i], k)
  {
    var path := Path(ladder, a, b, e);
    var p := EnabledAt(c, path, i);
    k := if p < a then p else p - a + b;
    PathAt(ladder, a, b, e, k);
    hide EnabledOf, Excused, PassedOver;
    forall j | 0 <= j < k && ladder[j].source in c.enabled
      ensures (ladder[j] in calls[..i] && PassedOver(c, input, ladder[j])) || Excused(c, input, ladder, j)
    {
      AboveOnPath(c, input, ladder, calls, a, b, e, p, j);
    }
  }

  /** Whatever the services answer: every call is that of a rung, and each enabled rung above that one was
      asked before and passed over, or is on the apex below one that answered without a country. */
  lemma NoRungIsSkipped(c: Services, input: string, mended: bool, i: nat) returns (k: nat)
    requires !BothKnown(Base(c, input)) && i < |Classified(c, input, mended).1|
    requires DnsFailed(c, input) || Brand(c, WithASN(c, Base(c, input))).None?
    ensures var calls, ladder := Classified(c, input, mended).1, Applicable(c, input);
            k < |ladder| && ladder[k] == calls[i] && NoneSkipped(c, input, ladder, calls[..i], k)
  {
    var a, b, e := CallsFollowLadder(c, input, mended);
    hide Classified, Applicable, Follows, Decided, Base, BothKnown, Brand, NoneSkipped;
    k := FollowersSkipNone(c, input, Applicable(c, input), Classified(c, input, mended).1, a, b, e, i);
  }

  lemma EndsPassedOver(c: Services, input: string, path: seq<Call>, ended: bool)
    requires GoesOn(c, input, path, ended) && AllPassedOver(c, input, EnabledOf(c, path))
    ensures ended
  {
    hide EnabledOf;
    if path != [] && path[|path| - 1].source in c.enabled {
      EnabledMember(c, path, |path| - 1);
    }
  }

  lemma FollowersExhaust(c: Services, input: string, ladder: seq<Call>, calls: seq<Call>, a: nat, b: nat, e: nat)
    requires Follows(c, input, ladder, calls, a, b, e) && AllPassedOver(c, input, calls)
    ensures NoneSkipped(c, input, ladder, calls, |ladder|)
  {
    var path := Path(ladder, a, b, e);
    EndsPassedOver(c, input, path, e == |ladder|);
    assert e == |ladder|;
    hide EnabledOf, Excused, PassedOver, GoesOn, OneApexAnswer, LeavesOut, Path;
    forall j | 0 <= j < |ladder| && ladder[j].source in c.enabled
      ensures (ladder[j] in calls && PassedOver(c, input, ladder[j])) || Excused(c, input, ladder, j)
    {
      if a <= j < b {
        LeftOutIsExcused(c, input, ladder, a, b, j);
      } else {
        PathAt(ladder, a, b, e, j);
        EnabledMember(c, path, OnPath(a, b, j));
      }
    }
  }

  /** When every call was passed over, no enabled rung of the whole ladder was skipped. */
  lemma LadderIsExhausted(c: Services, input: string, mended: bool)
    requires !BothKnown(Base(c, input)) && AllPassedOver(c, input, Classified(c, input, mended).1)
    requires DnsFailed(c, input) || Brand(c, WithASN(c, Base(c, input))).None?
    ensures var calls, ladder := Classified(c, input, mended).1, Applicable(c, input);
            NoneSkipped(c, input, ladder, calls, |ladder|)
  {
    var a, b, e := CallsFollowLadder(c, input, mended);
    hide Classified, Applicable, Follows, Decided, Base, BothKnown, Brand, NoneSkipped, AllPassedOver;
    FollowersExhaust(c, input, Applicable(c, input), Classified(c, input, mended).1, a, b, e);
  }

  // ----- which rungs are asked -----

  /** The first rung of the ladder that answers. */
  ghost predicate FirstAnswer(c: Services, ladder: seq<Call>, i: nat) {
    i < |ladder| && Answer(c, ladder[i]).Some? && forall k :: 0 <= k < i ==> Answer(c, ladder[k]).None?
  }

  /** No rung above j answers, or the first that does is on the apex, names no country, and j is on the input. */
  ghost predicate Reached(c: Services, input: string, ladder: seq<Call>, j: nat)
    requires j < |ladder|
  {
    forall i: nat :: i < j && FirstAnswer(c, ladder, i) ==>
      ladder[i].host != input && Answer(c, ladder[i]) == Some("") && ladder[j].host == input
  }

  lemma {:induction false} FirstAnswerUpTo(c: Services, ladder: seq<Call>, n: nat) returns (i: nat)
    requires n < |ladder| && Answer(c, ladder[n]).Some?
    ensures i <= n && FirstAnswer(c, ladder, i)
    decreases n
  {
    hide Answer;
    if k: nat :| k < n && Answer(c, ladder[k]).Some? {
      i := FirstAnswerUpTo(c, ladder, k);
    } else {
      i := n;
    }
  }

  /** Below a rung on the apex there is at most one on the input, the last. */
  ghost predicate OneBelowApex(input: string, ladder: seq<Call>) {
    forall i, j :: 0 <= i < j < |ladder| && ladder[i].host != input && ladder[j].host == input ==> j == |ladder| - 1
  }

  lemma VisitedIsReached(c: Services, input: string, ladder: seq<Call>, calls: seq<Call>, a: nat, b: nat,
                         e: nat, j: nat)
    requires Follows(c, input, ladder, calls, a, b, e)
    requires j < e && !(a <= j < b)
    ensures Reached(c, input, ladder, j)
  {
    hide EnabledOf, Path, Answer;
    PathAt(ladder, a, b, e, j);
    forall i: nat | i < j && FirstAnswer(c, ladder, i)
      ensures ladder[i].host != input && Answer(c, ladder[i]) == Some("") && ladder[j].host == input
    {
      if a <= i {
        assert !(a <= i < b);
      }
      PathAt(ladder, a, b, e, i);
      var path := Path(ladder, a, b, e);
      assert PassedOver(c, input, path[OnPath(a, b, i)]);
    }
  }

  /** A path that ends early ends with a rung that was not passed over. */
  lemma EndsDecided(c: Services, input: string, ladder: seq<Call>, calls: seq<Call>, a: nat, b: nat, e: nat)
    requires Follows(c, input, ladder, calls, a, b, e) && e < |ladder|
    ensures 0 < e && !(a <= e - 1 < b) && Answer(c, ladder[e - 1]).Some? && !PassedOver(c, input, ladder[e - 1])
  {
    hide EnabledOf, OneApexAnswer, Answer;
    var path := Path(ladder, a, b, e);
    assert path[|path| - 1] == if b < e then ladder[e - 1] else ladder[a - 1];
  }

  lemma UnvisitedIsNotReached(c: Services, input: string, ladder: seq<Call>, calls: seq<Call>, a: nat, b: nat, e: nat,
                              j: nat)
    requires Follows(c, input, ladder, calls, a, b, e) && OneBelowApex(input, ladder)
    requires j < |ladder| && (a <= j < b || e <= j)
    ensures !Reached(c, input, ladder, j)
  {
    if a <= j < b {
      hide EnabledOf, Path, GoesOn, OneApexAnswer, PassedOver, Answer;
      var i := FirstAnswerUpTo(c, ladder, a - 1);
    } else {
      EndsDecided(c, input, ladder, calls, a, b, e);
      hide EnabledOf, Path, GoesOn, OneApexAnswer, LeavesOut, Answer;
      var i := FirstAnswerUpTo(c, ladder, e - 1);
      if i < e - 1 {
        VisitedIsReached(c, input, ladder, calls, a, b, e, e - 1);
      }
    }
  }

  lemma PathLength(ladder: seq<Call>, a: nat, b: nat, e: nat)
    requires a <= b <= e <= |ladder|
    ensures |Path(ladder, a, b, e)| == a + e - b
  {
  }

  lemma AskedIsVisited(c: Services, input: string, ladder: seq<Call>, calls: seq<Call>, a: nat, b: nat, e: nat, j: nat)
    requires Follows(c, input, ladder, calls, a, b, e) && Distinct(ladder) && j < |ladder|
    ensures ladder[j] in calls <==> ladder[j].source in c.enabled && j < e && !(a <= j < b)
  {
    var path := Path(ladder, a, b, e);
    hide EnabledOf, Path, GoesOn, OneApexAnswer, LeavesOut;
    if j < e && !(a <= j < b) && ladder[j].source in c.enabled {
      PathAt(ladder, a, b, e, j);
      EnabledMember(c, path, OnPath(a, b, j));
    }
    if ladder[j] in calls {
      var i :| 0 <= i < |calls| && calls[i] == ladder[j];
      var p := EnabledAt(c, path, i);
      var k := if p < a then p else p - a + b;
      PathLength(ladder, a, b, e);
      PathAt(ladder, a, b, e, k);
      assert ladder[k] == ladder[j];
    }
  }

  lemma ThreeParts(input: string, top: seq<Call>, mid: seq<Call>, last: Call)
    requires Distinct(top) && Distinct(mid) && last.host == input && last.source.Wayback?
    requires forall i :: 0 <= i < |top| ==> top[i].host == input && !top[i].source.Wayback?
    requires forall i :: 0 <= i < |mid| ==> mid[i].host != input
    ensures Distinct(top + mid + [last]) && OneBelowApex(input, top + mid + [last])
  {
    var ladder := top + mid + [last];
    forall i, j | 0 <= i < j < |ladder|
      ensures ladder[i] != ladder[j]
      ensures ladder[i].host != input && ladder[j].host == input ==> j == |ladder| - 1
    {
      if |top| <= i && j < |top| + |mid| {
        assert ladder[i] == mid[i - |top|] && ladder[j] == mid[j - |top|];
      }
    }
  }

  lemma LadderShape(c: Services, input: string)
    ensures Distinct(Applicable(c, input)) && OneBelowApex(input, Applicable(c, input))
  {
    var dnsFailed := DnsFailed(c, input);
    var top, mid, last := InputRungs(input, dnsFailed), Middle(c, input), LastRung(input);
    InputRungsDistinct(input, dnsFailed);
    LowerRungsDistinct(c, input);
    assert last == [last[0]];
    hide InputRungs, Middle, LastRung, DnsFailed, GenericOnIDHost, Distinct;
    assert forall j :: 0 <= j < |top| ==> top[j] in top;
    assert forall j :: 0 <= j < |mid| ==> mid[j] in mid;
    assert last[0] in last;
    ThreeParts(input, top, mid, last[0]);
  }

  /** Whatever the services answer, exactly which rungs are asked: the enabled ones that are reached. */
  lemma RungIsAskedIff(c: Services, input: string, mended: bool, j: nat)
    requires !BothKnown(Base(c, input)) && j < |Applicable(c, input)|
    requires DnsFailed(c, input) || Brand(c, WithASN(c, Base(c, input))).None?
    ensures var calls, ladder := Classified(c, input, mended).1, Applicable(c, input);
            ladder[j] in calls <==> ladder[j].source in c.enabled && Reached(c, input, ladder, j)
  {
    var a, b, e := CallsFollowLadder(c, input, mended);
    var calls, ladder := Classified(c, input, mended).1, Applicable(c, input);
    LadderShape(c, input);
    hide Classified, Applicable, Follows, Decided, Base, BothKnown, Brand, Reached, Distinct, OneBelowApex, DnsFailed;
    AskedIsVisited(c, input, ladder, calls, a, b, e, j);
    if j < e && !(a <= j < b) {
      VisitedIsReached(c, input, ladder, calls, a, b, e, j);
    } else {
      UnvisitedIsNotReached(c, input, ladder, calls, a, b, e, j);
    }
  }

  lemma NotReachedBy(c: Services, input: string, ladder: seq<Call>, i: nat, j: nat)
    requires i < j < |ladder| && FirstAnswer(c, ladder, i) && ladder[j].host != input
    ensures !Reached(c, input, ladder, j)
  {
  }

  /** Once a rung on the apex answers, with a country or without, no rung on the apex below it is asked. */
  lemma ApexAnswerEndsApex(c: Services, input: string, mended: bool, i: nat, j: nat)
    requires i < j < |Middle(c, input)| && Answer(c, Middle(c, input)[i]).Some?
    ensures Middle(c, input)[j] !in Classified(c, input, mended).1
  {
    var calls, ladder, mid := Classified(c, input, mended).1, Applicable(c, input), Middle(c, input);
    var top := InputRungs(input, DnsFailed(c, input));
    InputRungsDistinct(input, DnsFailed(c, input));
    LowerRungsDistinct(c, input);
    LadderSplits(c, input, DnsFailed(c, input));
    hide InputRungs, Middle, LastRung, Answer, Ladder, Base, GenericOnIDHost, Brand, WithASN, Reached, DnsFailed;
    assert mid[j] in mid;
    if calls != [] {
      if ladder == top {
        hide Classified;
        forall n | 0 <= n < |calls|
          ensures calls[n] != mid[j]
        {
          var k := NoRungIsSkipped(c, input, mended, n);
          assert top[k] in top;
        }
      } else {
        assert ladder[|top| + j] == mid[j] && ladder[|top| + i] == mid[i];
        hide Classified, Applicable;
        RungIsAskedIff(c, input, mended, |top| + j);
        var first := FirstAnswerUpTo(c, ladder, |top| + i);
        NotReachedBy(c, input, ladder, first, |top| + j);
      }
    }
  }

  /** When the climb comes to the last rung, an enabled rung on the apex was left out exactly when one above
      it on the apex answered. */
  lemma ApexRungIsLeftOutIff(c: Services, input: string, mended: bool, j: nat)
    requires !BothKnown(Base(c, input)) && (DnsFailed(c, input) || !GenericOnIDHost(Base(c, input)))
    requires DnsFailed(c, input) || Brand(c, WithASN(c, Base(c, input))).None?
    requires var ladder := Ladder(c, input, DnsFailed(c, input)); Reached(c, input, ladder, |ladder| - 1)
    requires j < |Middle(c, input)| && Middle(c, input)[j].source in c.enabled
    ensures Middle(c, input)[j] !in Classified(c, input, mended).1
       <==> exists i :: 0 <= i < j && Answer(c, Middle(c, input)[i]).Some?
  {
    var ladder, mid := Ladder(c, input, DnsFailed(c, input)), Middle(c, input);
    var top := InputRungs(input, DnsFailed(c, input));
    InputRungsDistinct(input, DnsFailed(c, input));
    LadderSplits(c, input, DnsFailed(c, input));
    assert ladder[|top| + j] == mid[j];
    RungIsAskedIff(c, input, mended, |top| + j);
    hide InputRungs, Middle, LastRung, Answer, Ladder, Base, GenericOnIDHost, Brand, WithASN, DnsFailed, Classified;
    if i: nat :| i < j && Answer(c, mid[i]).Some? {
      ApexAnswerEndsApex(c, input, mended, i, j);
    } else {
      forall i: nat | i < |top| + j
        ensures !FirstAnswer(c, ladder, i)
      {
        if i < |top| {
          assert ladder[i] == top[i] && top[i] in top;
        } else {
          assert ladder[i] == mid[i - |top|];
        }
      }
    }
  }

  /** Services of which TLS and CT log are configured; on the apex TLS says ok without a country, and the CT
      log would name one. Nothing resolves. */
  function SilentApex(): Services {
    OnlyArchived().(
      enabled := {TLSCert, CTLog},
      ask := (call: Call) =>
        if call == Call(TLSCert, "example.com") then Some("")
        else if call == Call(CTLog, "example.com") then Some("ID")
        else None)
  }

  lemma SilentClimbs(c: Services, input: string)
    requires c == SilentApex() && input == "www.example.com"
    ensures Climb(c, InputRungs(input, true)) == ([], None) && Climb(c, LastRung(input)) == ([], None)
    ensures var tls := Call(TLSCert, "example.com");
            Climb(c, Middle(c, input)) == ([tls], Some(Hit(tls, "")))
  {
    assert |"www.example.com"| != |"example.com"|;
    var mid, top, last := ApexRungs("example.com"), InputRungs(input, true), LastRung(input);
    assert Middle(c, input) == mid;
    assert Answer(c, mid[0]) == Some("") && Made(c, mid[0]) == [mid[0]];
    assert top[1..] == [] && last[1..] == [];
    assert Made(c, top[0]) + [] == [] && Made(c, last[0]) + [] == [];
  }

  /** The enabled CT log is not asked, and the country it would have named is not found. */
  lemma ApexRungIsLeftOut()
    ensures var c, input := SilentApex(), "www.example.com";
            var (r, calls) := Classified(c, input, false);
            && CTLog in c.enabled && c.ask(Call(CTLog, "example.com")) == Some("ID")
            && calls == [Call(TLSCert, "example.com")] && r.finalCountry == "" && r.confidence.Unknown?
  {
    var c, input := SilentApex(), "www.example.com";
    var base := Base(c, input);
    SilentClimbs(c, input);
    assert DnsFailed(c, input) && base.domainCountry == "" && base.ipCountry == "" && base.finalCountry == "";
    EmptyUnit([Call(TLSCert, "example.com")]);
    hide Climb, InputRungs, Middle, LastRung, Answer, Base, DnsFailed, Record;
  }

  // ----- the verdict, from the answers alone -----

  /** What a source says of a host: nothing when its enricher is disabled. */
  function Says(c: Services, source: Source, host: string): Option<string> {
    Answer(c, Call(source, host))
  }

  /** Neither the two offline signals together nor a brand settles the host. */
  predicate Open(c: Services, input: string) {
    !BothKnown(Base(c, input)) && (DnsFailed(c, input) || Brand(c, WithASN(c, Base(c, input))).None?)
  }

  /** Domain and IP country are both known: the domain's decides, by agreement or with a caveat. */
  lemma BothSignalsDecide(c: Services, input: string, mended: bool)
    requires var base := Base(c, input); base.domainCountry != "" && base.ipCountry != ""
    ensures var (r, calls) := Classified(c, input, mended);
            var (dom, ip) := (Base(c, input).domainCountry, Base(c, input).ipCountry);
            && calls == [] && r.finalCountry == dom
            && (r.confidence.High? <==> dom == ip)
            && (r.confidence.MediumDomainIDOffshore? <==> dom != ip && dom == "ID")
            && (r.confidence.MediumDomainCCMismatch? <==> dom != ip && dom != "ID")
  {
  }

  lemma {:induction false} FirstPublicIs(c: Services, addrs: seq<Addr>, i: nat)
    requires i < |addrs| && c.isPublic(addrs[i]) && forall j :: 0 <= j < i ==> !c.isPublic(addrs[j])
    ensures FirstPublic(c, addrs) == addrs[i]
    decreases i
  {
    if i > 0 {
      FirstPublicIs(c, addrs[1..], i - 1);
    }
  }

  /** The host resolves, not both signals are known, and the organisation behind its first public address is
      a known brand: the brand's country decides. Without such a brand the host is open. */
  lemma BrandDecides(c: Services, input: string, mended: bool, i: nat)
    requires var base := Base(c, input); !DnsFailed(c, input) && (base.domainCountry == "" || base.ipCountry == "")
    requires var addrs := c.resolve(input).0;
             && i < |addrs| && c.isPublic(addrs[i]) && !addrs[i].Invalid?
             && forall j :: 0 <= j < i ==> !c.isPublic(addrs[j])
    requires c.lookupASN.Some?
    ensures var (n, org) := c.lookupASN.value(c.resolve(input).0[i]);
            var brand := if org == "" then None else c.brand(org);
            var (r, calls) := Classified(c, input, mended);
            if brand.Some? then
              && calls == [] && r.finalCountry == r.asnCountry == brand.value && r.confidence.HighASNBrand?
              && r.asn == n && r.asnOrg == org
            else Open(c, input)
  {
    var addrs := c.resolve(input).0;
    FirstPublicIs(c, addrs, i);
    BaseIsBare(c, input);
    assert Base(c, input).resolved == addrs;
    hide Base, FirstPublic, Climb, LowerRungs;
  }

  lemma ClimbHead(c: Services, x: Call, rest: seq<Call>)
    ensures var a := Says(c, x.source, x.host);
            Climb(c, [x] + rest) == if a.Some? then (EnabledOf(c, [x]), Some(Hit(x, a.value)))
                                    else (EnabledOf(c, [x]) + Climb(c, rest).0, Climb(c, rest).1)
  {
    assert ([x] + rest)[1..] == rest && [x][1..] == [];
    assert Made(c, x) + [] == Made(c, x);
  }

  /** One rung, and what a rung further down comes to. */
  lemma ClimbOne(c: Services, x: Call)
    ensures var a := Says(c, x.source, x.host);
            Climb(c, [x]) == (EnabledOf(c, [x]), if a.Some? then Some(Hit(x, a.value)) else None)
  {
    ClimbHead(c, x, []);
    assert [x] + [] == [x];
    assert EnabledOf(c, [x]) + [] == EnabledOf(c, [x]);
  }

  /** Four rungs, asked in this order. */
  lemma ClimbFour(c: Services, w: Call, x: Call, y: Call, z: Call)
    ensures var (calls, hit) := Climb(c, [w, x, y, z]);
            var (a, b, d, e) := (Says(c, w.source, w.host), Says(c, x.source, x.host), Says(c, y.source, y.host),
                                 Says(c, z.source, z.host));
            && hit == (if a.Some? then Some(Hit(w, a.value)) else if b.Some? then Some(Hit(x, b.value))
                       else if d.Some? then Some(Hit(y, d.value)) else if e.Some? then Some(Hit(z, e.value)) else None)
            && calls == EnabledOf(c, [w]) + (if a.Some? then [] else
                        EnabledOf(c, [x]) + (if b.Some? then [] else
                        EnabledOf(c, [y]) + if d.Some? then [] else EnabledOf(c, [z])))
  {
    hide Climb, EnabledOf, Says;
    ClimbHead(c, w, [x, y, z]);
    ClimbHead(c, x, [y, z]);
    ClimbHead(c, y, [z]);
    ClimbOne(c, z);
    assert [w] + [x, y, z] == [w, x, y, z] && [x] + [y, z] == [x, y, z] && [y] + [z] == [y, z];
  }

  lemma ClimbFive(c: Services, v: Call, w: Call, x: Call, y: Call, z: Call)
    ensures var below := Climb(c, [w, x, y, z]);
            var a := Says(c, v.source, v.host);
            Climb(c, [v, w, x, y, z]) == if a.Some? then (EnabledOf(c, [v]), Some(Hit(v, a.value)))
                                         else (EnabledOf(c, [v]) + below.0, below.1)
  {
    ClimbHead(c, v, [w, x, y, z]);
    assert [v] + [w, x, y, z] == [v, w, x, y, z];
  }

  /** A host that resolves and is open: of the sources asked about it, TLS decides if it answers, else the CT
      log, else the content scan, else RDAP; and nothing is asked after an answer. */
  lemma InputDecides(c: Services, input: string, mended: bool)
    requires Open(c, input) && !DnsFailed(c, input)
    ensures var (r, calls) := Classified(c, input, mended);
            var tls, ct := Says(c, TLSCert, input), Says(c, CTLog, input);
            var scan, rdap := Says(c, ContentScan, input), Says(c, RDAP, input);
            var t, l := EnabledOf(c, [Call(TLSCert, input)]), EnabledOf(c, [Call(CTLog, input)]);
            var s, p := EnabledOf(c, [Call(ContentScan, input)]), EnabledOf(c, [Call(RDAP, input)]);
            if tls.Some? then
              r.finalCountry == r.certCountry == tls.value && r.confidence.HighSSLCert? && calls == t
            else if ct.Some? then
              r.finalCountry == r.ctlogCountry == ct.value && r.confidence.HighCTLog? && calls == t + l
            else if scan.Some? then
              r.finalCountry == r.contentCountry == scan.value && r.confidence.HighContent? && calls == t + (l + s)
            else if rdap.Some? then
              && r.finalCountry == r.registrantCountry == rdap.value && r.confidence.HighRDAPRegistrant?
              && calls == t + (l + (s + p))
            else t + (l + (s + p)) <= calls
  {
    ClimbFour(c, Call(TLSCert, input), Call(CTLog, input), Call(ContentScan, input), Call(RDAP, input));
    hide Climb, EnabledOf, Says, Base, DnsFailed, LowerRungs, WithASN, GenericOnIDHost;
    EmptyUnit(EnabledOf(c, [Call(TLSCert, input)]));
    EmptyUnit(EnabledOf(c, [Call(CTLog, input)]));
    EmptyUnit(EnabledOf(c, [Call(ContentScan, input)]));
  }

  /** After a failed resolve only RDAP is asked about the host itself. */
  lemma RegistrantDecidesUnresolved(c: Services, input: string, mended: bool)
    requires Open(c, input) && DnsFailed(c, input)
    ensures var (r, calls) := Classified(c, input, mended);
            var rdap := Says(c, RDAP, input);
            if rdap.Some? then
              && r.finalCountry == r.registrantCountry == rdap.value && r.confidence.HighRDAPRegistrant?
              && calls == EnabledOf(c, [Call(RDAP, input)])
            else EnabledOf(c, [Call(RDAP, input)]) <= calls
  {
    ClimbOne(c, Call(RDAP, input));
    hide Climb, EnabledOf, Says, Base, DnsFailed, LowerRungs, WithASN, GenericOnIDHost;
  }

  /** No source that is asked about the host itself answers. */
  predicate InputSilent(c: Services, input: string) {
    && Says(c, RDAP, input).None?
    && (!DnsFailed(c, input) ==>
          Says(c, TLSCert, input).None? && Says(c, CTLog, input).None? && Says(c, ContentScan, input).None?)
  }

  lemma SilentGoesOn(c: Services, input: string, mended: bool)
    requires Open(c, input) && InputSilent(c, input)
    ensures var dnsFailed := DnsFailed(c, input);
            var base := Base(c, input);
            var r := if dnsFailed then base else WithASN(c, base);
            && (!dnsFailed && GenericOnIDHost(base) ==>
                  Classified(c, input, mended).0 == Final(r, "ID", D.MediumGenericTLDIDHost))
            && (dnsFailed || !GenericOnIDHost(base) ==>
                  Classified(c, input, mended).0 == LowerRungs(c, input, r, dnsFailed, mended).0)
  {
    ClimbFour(c, Call(TLSCert, input), Call(CTLog, input), Call(ContentScan, input), Call(RDAP, input));
    ClimbOne(c, Call(RDAP, input));
    ASNIsNoSignal(c, Base(c, input));
    hide Climb, EnabledOf, Says, Base, DnsFailed, LowerRungs, WithASN, GenericOnIDHost, Final;
  }

  /** The sources on the host itself are silent, and a generic or unknown domain is on an Indonesian address. */
  lemma GenericDecides(c: Services, input: string, mended: bool)
    requires Open(c, input) && InputSilent(c, input) && !DnsFailed(c, input)
    requires var base := Base(c, input);
             base.domainCountry == "" && base.domainSuffix in {"generic", ""} && base.ipCountry == "ID"
    ensures var r := Classified(c, input, mended).0;
            r.finalCountry == "ID" && r.confidence.MediumGenericTLDIDHost?
  {
    SilentGoesOn(c, input, mended);
    hide Classified, LowerRungs, Base, Open, InputSilent;
  }

  /** Neither decided: what is below is asked. */
  predicate GoesBelow(c: Services, input: string) {
    && Open(c, input) && InputSilent(c, input)
    && (DnsFailed(c, input)
        || var base := Base(c, input);
           !(base.domainCountry == "" && base.domainSuffix in {"generic", ""} && base.ipCountry == "ID"))
  }

  /** The country that the apex gives: that of the first to answer of TLS, CT log, content scan, RDAP and
      Wayback; "" when none does, or the first names none. */
  function ApexSays(c: Services, apex: string): string {
    if Says(c, TLSCert, apex).Some? then Says(c, TLSCert, apex).value
    else if Says(c, CTLog, apex).Some? then Says(c, CTLog, apex).value
    else if Says(c, ContentScan, apex).Some? then Says(c, ContentScan, apex).value
    else if Says(c, RDAP, apex).Some? then Says(c, RDAP, apex).value
    else if Says(c, Wayback, apex).Some? then Says(c, Wayback, apex).value
    else ""
  }

  lemma ApexClimb(c: Services, apex: string)
    ensures var hit := Climb(c, ApexRungs(apex)).1;
            && ApexSays(c, apex) == (if hit.Some? then hit.value.cc else "")
            && (hit.Some? ==>
                  hit.value.call.source == (if Says(c, TLSCert, apex).Some? then TLSCert
                                            else if Says(c, CTLog, apex).Some? then CTLog
                                            else if Says(c, ContentScan, apex).Some? then ContentScan
                                            else if Says(c, RDAP, apex).Some? then RDAP
                                            else Wayback))
  {
    ClimbFive(c, Call(TLSCert, apex), Call(CTLog, apex), Call(ContentScan, apex), Call(RDAP, apex),
              Call(Wayback, apex));
    ClimbFour(c, Call(CTLog, apex), Call(ContentScan, apex), Call(RDAP, apex), Call(Wayback, apex));
    hide Climb, EnabledOf, Says;
  }

  /** The registrable parent is asked next; the tier is that of the first of its sources to answer. */
  lemma ApexDecides(c: Services, input: string, mended: bool, apex: string)
    requires GoesBelow(c, input) && c.apexOf(input) == Some(apex) && apex != "" && apex != input
    requires ApexSays(c, apex) != ""
    ensures var r := Classified(c, input, mended).0;
            && r.finalCountry == ApexSays(c, apex)
            && if Says(c, TLSCert, apex).Some? then r.confidence.HighSSLCert?
               else if Says(c, CTLog, apex).Some? then r.confidence.HighCTLog?
               else if Says(c, ContentScan, apex).Some? then r.confidence.HighContent?
               else if Says(c, RDAP, apex).Some? then r.confidence.HighRDAPRegistrant?
               else if mended || !DnsFailed(c, input) then r.confidence.MediumWayback?
               else r.confidence.Unset?
  {
    SilentGoesOn(c, input, mended);
    ApexClimb(c, apex);
    BaseIsBare(c, input);
    assert Middle(c, input) == ApexRungs(apex);
    hide Climb, EnabledOf, Says, Base, DnsFailed, Classified, ApexSays, Middle, ApexRungs, LastRung, Open, InputSilent;
  }

  /** Without a country from a distinct parent, Wayback on the host itself, and then the one signal there is. */
  lemma LastDecides(c: Services, input: string, mended: bool)
    requires GoesBelow(c, input)
    requires var apex := c.apexOf(input);
             apex.Some? && apex.value != "" && apex.value != input ==> ApexSays(c, apex.value) == ""
    ensures var r := Classified(c, input, mended).0;
            var wayback := Says(c, Wayback, input);
            var (dom, ip) := (Base(c, input).domainCountry, Base(c, input).ipCountry);
            if wayback.Some? then r.finalCountry == r.waybackCountry == wayback.value && r.confidence.MediumWayback?
            else if dom != "" then r.finalCountry == dom && r.confidence.LowDNSFailed?
            else if ip != "" && !DnsFailed(c, input) then r.finalCountry == ip && r.confidence.IPOnly?
            else r.finalCountry == "" && r.confidence.Unknown?
  {
    var apex := c.apexOf(input);
    SilentGoesOn(c, input, mended);
    BaseIsBare(c, input);
    ClimbOne(c, Call(Wayback, input));
    ClimbNone(c);
    if DistinctApex(c, input).Some? {
      ApexClimb(c, apex.value);
    }
    hide Climb, EnabledOf, Says, Base, DnsFailed, Classified, ApexSays, ApexRungs, InputSilent;
  }

  // ----- evidence fields -----

  /** The evidence field of a source. */
  function FieldOf(r: Result, source: Source): string {
    match source
    case TLSCert => r.certCountry
    case CTLog => r.ctlogCountry
    case ContentScan => r.contentCountry
    case RDAP => r.registrantCountry
    case Wayback => r.waybackCountry
  }

  /** Only the field of the last call's source may be filled, and only with its answer. */
  ghost predicate OnlyWinner(c: Services, r: Result, calls: seq<Call>) {
    forall source :: FieldOf(r, source) != "" ==>
      calls != [] && calls[|calls| - 1].source == source && Answer(c, calls[|calls| - 1]) == Some(FieldOf(r, source))
  }

  lemma RecordFillsOne(c: Services, r: Result, h: Hit, wayback: bool, calls: seq<Call>)
    requires NoFields(r)
    requires calls != [] && calls[|calls| - 1] == h.call && Answer(c, h.call) == Some(h.cc)
    ensures OnlyWinner(c, Record(r, h, wayback), calls)
  {
  }

  lemma NoFieldFilled(c: Services, r: Result, calls: seq<Call>)
    requires NoFields(r)
    ensures OnlyWinner(c, r, calls)
  {
  }

  lemma LowerFillsOne(c: Services, input: string, r: Result, dnsFailed: bool, mended: bool, before: seq<Call>)
    requires NoFields(r)
    ensures var (result, calls) := LowerRungs(c, input, r, dnsFailed, mended);
            OnlyWinner(c, result, before + calls)
  {
    var rungs := Middle(c, input);
    var (apexCalls, apexHit) := Climb(c, rungs);
    var (lastCalls, lastHit) := Climb(c, LastRung(input));
    ClimbLast(c, rungs);
    ClimbLast(c, LastRung(input));
    hide Climb, Answer, Middle, LastRung, Record;
    if apexHit.Some? && apexHit.value.cc != "" {
      RecordFillsOne(c, r, apexHit.value, mended || !dnsFailed, before + apexCalls);
    } else if lastHit.Some? {
      RecordFillsOne(c, r, lastHit.value, true, before + (apexCalls + lastCalls));
    } else {
      NoFieldFilled(c, FromOneSignal(r, dnsFailed), before + (apexCalls + lastCalls));
    }
  }

  /** A result carries the enrichment evidence of the winning rung and of no other. */
  lemma OnlyTheWinnerIsRecorded(c: Services, input: string, mended: bool)
    ensures OnlyWinner(c, Classified(c, input, mended).0, Classified(c, input, mended).1)
  {
    var dnsFailed := DnsFailed(c, input);
    var base := Base(c, input);
    var r := if dnsFailed then base else WithASN(c, base);
    BaseIsBare(c, input);
    var rungs := InputRungs(input, dnsFailed);
    var (calls, hit) := Climb(c, rungs);
    ClimbLast(c, rungs);
    LowerFillsOne(c, input, r, dnsFailed, mended, calls);
    hide Climb, Answer, InputRungs, OnlyWinner, LowerRungs, Base;
    if hit.Some? {
      RecordFillsOne(c, r, hit.value, true, calls);
    }
    NoFieldFilled(c, FromBoth(base), []);
    if Brand(c, r).Some? {
      NoFieldFilled(c, Final(r, Brand(c, r).value, D.HighASNBrand).(asnCountry := Brand(c, r).value), []);
    }
    NoFieldFilled(c, Final(r, "ID", D.MediumGenericTLDIDHost), calls);
    hide Record, WithASN, FromBoth, Final;
  }

  predicate SameSignals(r: Result, s: Result) {
    && r.input == s.input && r.kind == s.kind && r.resolved == s.resolved && r.domainCountry == s.domainCountry
    && r.domainSuffix == s.domainSuffix && r.ipCountry == s.ipCountry && r.registry == s.registry
  }

  predicate SameASN(r: Result, s: Result) { r.asn == s.asn && r.asnOrg == s.asnOrg }

  lemma RecordKeepsSignals(r: Result, h: Hit, wayback: bool)
    ensures SameSignals(Record(r, h, wayback), r) && SameASN(Record(r, h, wayback), r)
  {
  }

  lemma LowerKeepsSignals(c: Services, input: string, r: Result, dnsFailed: bool, mended: bool)
    ensures SameSignals(LowerRungs(c, input, r, dnsFailed, mended).0, r)
    ensures SameASN(LowerRungs(c, input, r, dnsFailed, mended).0, r)
  {
    var apexHit := Climb(c, Middle(c, input)).1;
    var lastHit := Climb(c, LastRung(input)).1;
    hide Climb, Record, Middle, LastRung;
    if apexHit.Some? {
      RecordKeepsSignals(r, apexHit.value, mended || !dnsFailed);
    }
    if lastHit.Some? {
      RecordKeepsSignals(r, lastHit.value, true);
    }
  }

  lemma WithASNKeepsSignals(c: Services, r: Result)
    ensures SameSignals(WithASN(c, r), r)
  {
  }

  /** The ladder changes nothing of what was computed before it. */
  lemma SignalsArePreserved(c: Services, input: string, mended: bool)
    ensures SameSignals(Classified(c, input, mended).0, Base(c, input))
  {
    hide Climb, Base, LowerRungs, InputRungs, Record, WithASN;
    var base := Base(c, input);
    var dnsFailed := DnsFailed(c, input);
    var r := if dnsFailed then base else WithASN(c, base);
    WithASNKeepsSignals(c, base);
    LowerKeepsSignals(c, input, r, dnsFailed, mended);
    var hit := Climb(c, InputRungs(input, dnsFailed)).1;
    if hit.Some? {
      RecordKeepsSignals(r, hit.value, true);
    }
  }

  lemma {:induction false} NonePublic(c: Services, addrs: seq<Addr>)
    ensures (forall a <- addrs :: !c.isPublic(a)) ==> FirstPublic(c, addrs) == Invalid
    decreases |addrs|
  {
    if addrs != [] {
      NonePublic(c, addrs[1..]);
      assert forall a <- addrs[1..] :: a in addrs;
    }
  }

  /** The ASN and organisation recorded are those of the first public address, for a host that resolves and
      of which not both signals are known; otherwise there are none. */
  lemma ASNIsRecorded(c: Services, input: string, mended: bool)
    ensures var r := Classified(c, input, mended).0;
            var first := FirstPublic(c, c.resolve(input).0);
            (r.asn, r.asnOrg) ==
              if BothKnown(Base(c, input)) || DnsFailed(c, input) || c.lookupASN.None? || first.Invalid? then (0, "")
              else c.lookupASN.value(first)
  {
    hide Climb, LowerRungs, InputRungs, Record, FirstPublic;
    var base := Base(c, input);
    var dnsFailed := DnsFailed(c, input);
    var r := if dnsFailed then base else WithASN(c, base);
    LowerKeepsSignals(c, input, r, dnsFailed, mended);
    var hit := Climb(c, InputRungs(input, dnsFailed)).1;
    if hit.Some? {
      RecordKeepsSignals(r, hit.value, true);
    }
  }

  /** The signals are the domain's country and type, the addresses, and the IP country and registry of
      the first public address, if there is one. */
  lemma BaseSignals(c: Services, input: string)
    ensures var r := Base(c, input);
            && r.input == input && r.kind == "domain" && r.resolved == c.resolve(input).0
            && (r.domainCountry, r.domainSuffix) == c.domainOf(input)
            && ((forall a <- r.resolved :: !c.isPublic(a)) ==> (r.ipCountry, r.registry) == ("", ""))
            && forall i :: 0 <= i < |r.resolved| && c.isPublic(r.resolved[i]) && !r.resolved[i].Invalid?
                           && (forall j :: 0 <= j < i ==> !c.isPublic(r.resolved[j]))
                 ==> (r.ipCountry, r.registry) == c.lookupIP(r.resolved[i])
  {
    var addrs := c.resolve(input).0;
    NonePublic(c, addrs);
    forall i | 0 <= i < |addrs| && c.isPublic(addrs[i]) && (forall j :: 0 <= j < i ==> !c.isPublic(addrs[j]))
      ensures FirstPublic(c, addrs) == addrs[i]
    {
      FirstPublicIs(c, addrs, i);
    }
    hide FirstPublic;
  }

  // ----- the ladder and the vote -----

  lemma NothingAnswers(c: Services, rungs: seq<Call>)
    requires c.enabled == {}
    ensures Climb(c, rungs).1.None?
  {
  }

  /** With two signals, two votes for one country mean that both name it. */
  lemma VoteOfTwo(s: D.Signals, order: seq<string>)
    requires D.IsOrder(s, order) && s.asnCC == "" && s.rdapCC == ""
    ensures D.LeaderVotes(s, order) >= 2 <==> s.domainCC != "" && s.domainCC == s.ipCC
    ensures D.LeaderVotes(s, order) >= 2 ==> D.Leader(s, order) == s.domainCC
  {
    D.NamedHaveVotes(s, order);
    var best := D.Leader(s, order);
    if s.domainCC != "" && s.domainCC == s.ipCC {
      assert s.domainCC == D.Ballots(s)[0];
      assert s.domainCC in order;
      D.LeaderLeads(s, order, s.domainCC);
    }
    if best != "" {
      assert best in order;
    }
  }

  /** With no enrichers, the ladder gives the country and tier of the vote, under every iteration order of
      the vote map, unless the resolver fails and still returns an address whose country differs from the
      domain's: then the vote answers low and the ladder medium. */
  lemma LadderAgreesWithVote(c: Services, input: string, mended: bool, order: seq<string>)
    requires c.enabled == {} && c.lookupASN.None?
    ensures var base := Base(c, input);
            var failed := DnsFailed(c, input);
            var s := D.Signals(base.domainCountry, base.domainSuffix, base.ipCountry, "", "", failed, false);
            var r := Classified(c, input, mended).0;
            D.IsOrder(s, order) ==>
              (D.DecideBy(s, order) == D.Decision(r.finalCountry, r.confidence) <==>
                !(failed && BothKnown(base) && base.domainCountry != base.ipCountry))
  {
    var base := Base(c, input);
    var dnsFailed := DnsFailed(c, input);
    var s := D.Signals(base.domainCountry, base.domainSuffix, base.ipCountry, "", "", dnsFailed, false);
    NothingAnswers(c, InputRungs(input, dnsFailed));
    NothingAnswers(c, LastRung(input));
    NothingAnswers(c, Middle(c, input));
    BaseIsBare(c, input);
    if D.IsOrder(s, order) {
      VoteOfTwo(s, order);
      hide Climb, Base, InputRungs, ApexRungs, LastRung, D.LeaderVotes, D.Leader, D.IsOrder;
    }
  }
}
