/** The vote-based decision that the ladder replaced (internal/classifier/decision.go). */
module Decision {

  /** The confidence tiers; Unset is the empty string a Result starts with. */
  datatype Tier =
    | Unset
    | High | HighASNBrand | HighSSLCert | HighCTLog | HighContent | HighRDAPRegistrant
    | MediumWayback | MediumDomainIDOffshore | MediumGenericTLDIDHost | MediumDomainCCMismatch
    | LowDNSFailed | IPOnly | Unknown

  datatype Signals = Signals(
    domainCC: string,
    domainType: string,
    ipCC: string,
    asnCC: string,
    rdapCC: string,
    dnsFailed: bool,
    isIPInput: bool)

  datatype Decision = Decision(country: string, tier: Tier)

  predicate RawIP(s: Signals) { s.isIPInput && s.asnCC == "" && s.rdapCC == "" }

  // ----- votes -----

  function Ballots(s: Signals): seq<string> { [s.domainCC, s.ipCC, s.asnCC, s.rdapCC] }

  /** How many signals name cc. */
  function Votes(s: Signals, cc: string): nat {
    (if s.domainCC == cc then 1 else 0) + (if s.ipCC == cc then 1 else 0)
    + (if s.asnCC == cc then 1 else 0) + (if s.rdapCC == cc then 1 else 0)
  }

  function Named(s: Signals): set<string> { set cc | cc in Ballots(s) && cc != "" }

  /** The order in which a range over the vote map may visit its keys: any. */
  ghost predicate IsOrder(s: Signals, order: seq<string>) {
    && (forall i, j :: 0 <= i < j < |order| ==> order[i] != order[j])
    && (forall cc :: cc in order <==> cc in Named(s))
  }

  /** The country leading after the keys of order have been visited: the first with the most votes. */
  function Leader(s: Signals, order: seq<string>): (best: string)
    ensures best == "" || best in order
  {
    if order == [] then ""
    else
      var before := Leader(s, order[..|order| - 1]);
      var cc := order[|order| - 1];
      if Votes(s, cc) > (if before == "" then 0 else Votes(s, before)) then cc else before
  }

  function LeaderVotes(s: Signals, order: seq<string>): nat {
    if Leader(s, order) == "" then 0 else Votes(s, Leader(s, order))
  }

  /** The rules that apply when no two signals agree. */
  function Fallback(s: Signals): Decision {
    if s.asnCC != "" then Decision(s.asnCC, HighASNBrand)
    else if s.rdapCC != "" then Decision(s.rdapCC, HighRDAPRegistrant)
    else if s.dnsFailed then
      if s.domainCC != "" then Decision(s.domainCC, LowDNSFailed) else Decision("", Unknown)
    else if s.domainCC != "" && s.ipCC != "" && s.domainCC != s.ipCC then
      Decision(s.domainCC, if s.domainCC == "ID" then MediumDomainIDOffshore else MediumDomainCCMismatch)
    else if s.domainCC == "" && (s.domainType == "generic" || s.domainType == "") && s.ipCC == "ID" then
      Decision("ID", MediumGenericTLDIDHost)
    else if s.domainCC != "" && s.ipCC == "" then Decision(s.domainCC, LowDNSFailed)
    else if s.ipCC != "" then Decision(s.ipCC, IPOnly)
    else Decision("", Unknown)
  }

  /** The decision under one iteration order of the vote map. */
  function DecideBy(s: Signals, order: seq<string>): Decision {
    if RawIP(s) then if s.ipCC != "" then Decision(s.ipCC, IPOnly) else Decision("", Unknown)
    else if LeaderVotes(s, order) >= 2 then Decision(Leader(s, order), High)
    else Fallback(s)
  }

  /** for cc, v := range votes { if v > n { best, n = cc, v } } */
  method Lead(s: Signals, votes: map<string, nat>) returns (best: string, n: nat, ghost order: seq<string>)
    requires votes.Keys == Named(s) && forall cc :: cc in votes ==> votes[cc] == Votes(s, cc)
    ensures IsOrder(s, order)
    ensures best == Leader(s, order)
    ensures n == LeaderVotes(s, order)
  {
    assert forall cc :: cc in votes.Keys ==> cc != "";
    hide Votes, Named;
    best, n := "", 0;
    var keys := votes.Keys;
    order := [];
    while keys != {}
      invariant keys <= votes.Keys && forall cc :: cc in order <==> cc in votes.Keys - keys
      invariant forall i, j :: 0 <= i < j < |order| ==> order[i] != order[j]
      invariant best == Leader(s, order) && n == LeaderVotes(s, order)
      decreases keys
    {
      var cc :| cc in keys;
      keys := keys - {cc};
      assert cc !in order;
      assert (order + [cc])[..|order|] == order;
      order := order + [cc];
      if votes[cc] > n {
        best, n := cc, votes[cc];
      }
    }
  }

  lemma {:induction false} Listed(left: set<string>) returns (order: seq<string>)
    ensures forall i, j :: 0 <= i < j < |order| ==> order[i] != order[j]
    ensures forall cc :: cc in order <==> cc in left
    decreases left
  {
    if left == {} {
      order := [];
    } else {
      var cc :| cc in left;
      var rest := Listed(left - {cc});
      order := [cc] + rest;
    }
  }

  lemma SomeOrder(s: Signals) returns (order: seq<string>)
    ensures IsOrder(s, order)
  {
    order := Listed(Named(s));
  }

  function VotesAmong(ballots: seq<string>, cc: string): nat {
    if ballots == [] then 0
    else VotesAmong(ballots[..|ballots| - 1], cc) + (if ballots[|ballots| - 1] == cc then 1 else 0)
  }

  lemma {:induction false} NoVotes(ballots: seq<string>, cc: string)
    requires cc !in ballots
    ensures VotesAmong(ballots, cc) == 0
    decreases |ballots|
  {
    if ballots != [] {
      NoVotes(ballots[..|ballots| - 1], cc);
    }
  }

  lemma FourVotes(s: Signals, cc: string)
    ensures VotesAmong(Ballots(s), cc) == Votes(s, cc)
  {
    var b := Ballots(s);
    assert b[..3][..2] == b[..2] && b[..2][..1] == b[..1] && b[..1][..0] == [];
    assert VotesAmong(b[..1], cc) == if b[0] == cc then 1 else 0;
    assert VotesAmong(b[..2], cc) == VotesAmong(b[..1], cc) + if b[1] == cc then 1 else 0;
    assert VotesAmong(b[..3], cc) == VotesAmong(b[..2], cc) + if b[2] == cc then 1 else 0;
  }

  /** Count the votes: one per signal that names a country. */
  method Tally(s: Signals) returns (votes: map<string, nat>)
    ensures votes.Keys == Named(s)
    ensures forall cc :: cc in votes ==> votes[cc] == Votes(s, cc)
  {
    votes := map[];
    var ballots := Ballots(s);
    for i := 0 to 4
      invariant votes.Keys == set cc | cc in ballots[..i] && cc != ""
      invariant forall cc :: cc in votes ==> votes[cc] == VotesAmong(ballots[..i], cc)
    {
      var cc := ballots[i];
      assert ballots[..i + 1] == ballots[..i] + [cc];
      forall x | x in votes.Keys + {cc}
        ensures VotesAmong(ballots[..i + 1], x) == VotesAmong(ballots[..i], x) + (if x == cc then 1 else 0)
      {
        assert ballots[..i + 1][..i] == ballots[..i];
      }
      if cc != "" {
        if cc !in votes { NoVotes(ballots[..i], cc); }
        votes := votes[cc := (if cc in votes then votes[cc] else 0) + 1];
      }
    }
    assert ballots[..4] == ballots;
    forall cc
      ensures VotesAmong(ballots, cc) == Votes(s, cc)
    {
      FourVotes(s, cc);
    }
  }

  /** The vote map is ranged over in an order of the runtime's choosing. */
  method Decide(s: Signals) returns (d: Decision)
    ensures exists order :: IsOrder(s, order) && d == DecideBy(s, order)
  {
    hide Leader, LeaderVotes, IsOrder, Votes;
    if RawIP(s) {
      ghost var any := SomeOrder(s);
      d := if s.ipCC != "" then Decision(s.ipCC, IPOnly) else Decision("", Unknown);
      assert d == DecideBy(s, any);
      return;
    }
    var votes := Tally(s);
    var best, n;
    ghost var order;
    best, n, order := Lead(s, votes);
    if n >= 2 {
      d := Decision(best, High);
    } else if s.asnCC != "" {
      d := Decision(s.asnCC, HighASNBrand);
    } else if s.rdapCC != "" {
      d := Decision(s.rdapCC, HighRDAPRegistrant);
    } else if s.dnsFailed {
      d := if s.domainCC != "" then Decision(s.domainCC, LowDNSFailed) else Decision("", Unknown);
    } else if s.domainCC != "" && s.ipCC != "" && s.domainCC != s.ipCC {
      d := Decision(s.domainCC, if s.domainCC == "ID" then MediumDomainIDOffshore else MediumDomainCCMismatch);
    } else if s.domainCC == "" && (s.domainType == "generic" || s.domainType == "") && s.ipCC == "ID" {
      d := Decision("ID", MediumGenericTLDIDHost);
    } else if s.domainCC != "" && s.ipCC == "" {
      d := Decision(s.domainCC, LowDNSFailed);
    } else if s.ipCC != "" {
      d := Decision(s.ipCC, IPOnly);
    } else {
      d := Decision("", Unknown);
    }
    assert d == DecideBy(s, order);
  }

  // ----- properties -----

  /** The leader has at least as many votes as anyone, whatever the order. */
  lemma {:induction false} LeaderLeads(s: Signals, order: seq<string>, cc: string)
    requires cc in order && forall x <- order :: x != "" && Votes(s, x) >= 1
    ensures Leader(s, order) != "" && Votes(s, cc) <= LeaderVotes(s, order)
    decreases |order|
  {
    var init := order[..|order| - 1];
    var last := order[|order| - 1];
    assert order == init + [last];
    assert forall x <- init :: x in order;
    if cc in init {
      LeaderLeads(s, init, cc);
    }
  }

  lemma NamedHaveVotes(s: Signals, order: seq<string>)
    requires IsOrder(s, order)
    ensures forall cc <- order :: cc != "" && Votes(s, cc) >= 1
  {
  }

  /** Two countries with two signals each. */
  predicate SplitTwoTwo(s: Signals) {
    var d, i, a, r := s.domainCC, s.ipCC, s.asnCC, s.rdapCC;
    && d != "" && i != "" && a != "" && r != ""
    && ((d == i && a == r && d != a) || (d == a && i == r && d != i) || (d == r && i == a && d != i))
  }

  lemma TwoLeaders(s: Signals, a: string, b: string)
    requires a != b && a != "" && b != "" && Votes(s, a) >= 2 && Votes(s, b) >= 2
    ensures SplitTwoTwo(s)
  {
  }

  lemma PairOrder(s: Signals, x: string, y: string)
    requires SplitTwoTwo(s) && x != y && Votes(s, x) == 2 && Votes(s, y) == 2 && x in Named(s) && y in Named(s)
    ensures IsOrder(s, [x, y]) && DecideBy(s, [x, y]) == Decision(x, High)
  {
    assert [x, y][..1] == [x] && [x][..0] == [];
    assert Leader(s, [x]) == x;
  }

  lemma SameOutcome(s: Signals, a: seq<string>, b: seq<string>)
    requires IsOrder(s, a) && IsOrder(s, b) && !SplitTwoTwo(s)
    ensures DecideBy(s, a) == DecideBy(s, b)
  {
    NamedHaveVotes(s, a);
    NamedHaveVotes(s, b);
    var p, q := Leader(s, a), Leader(s, b);
    if p != "" {
      LeaderLeads(s, b, p);
    }
    if q != "" {
      LeaderLeads(s, a, q);
    }
    if LeaderVotes(s, a) >= 2 && p != q {
      TwoLeaders(s, p, q);
    }
  }

  /** The answer depends on the iteration order exactly when the signals split two against two. */
  lemma OrderMattersIffSplit(s: Signals)
    ensures (forall a, b :: IsOrder(s, a) && IsOrder(s, b) ==> DecideBy(s, a) == DecideBy(s, b)) <==> !SplitTwoTwo(s)
  {
    if SplitTwoTwo(s) {
      var x := s.domainCC;
      var y := if s.ipCC != x then s.ipCC else s.asnCC;
      PairOrder(s, x, y);
      PairOrder(s, y, x);
      assert DecideBy(s, [x, y]) != DecideBy(s, [y, x]);
    } else {
      forall a, b | IsOrder(s, a) && IsOrder(s, b)
        ensures DecideBy(s, a) == DecideBy(s, b)
      {
        SameOutcome(s, a, b);
      }
    }
  }

  /** Some two signals name the same country. */
  predicate TwoAgree(s: Signals) {
    || (s.domainCC != "" && (s.domainCC == s.ipCC || s.domainCC == s.asnCC || s.domainCC == s.rdapCC))
    || (s.ipCC != "" && (s.ipCC == s.asnCC || s.ipCC == s.rdapCC))
    || (s.asnCC != "" && s.asnCC == s.rdapCC)
  }

  lemma HighIffTwoAgree(s: Signals, order: seq<string>)
    requires IsOrder(s, order)
    ensures LeaderVotes(s, order) >= 2 <==> TwoAgree(s)
  {
    NamedHaveVotes(s, order);
    if TwoAgree(s) {
      var cc := if s.domainCC != "" && Votes(s, s.domainCC) >= 2 then s.domainCC
                else if s.ipCC != "" && Votes(s, s.ipCC) >= 2 then s.ipCC
                else s.asnCC;
      var b := Ballots(s);
      assert cc == b[0] || cc == b[1] || cc == b[2];
      LeaderLeads(s, order, cc);
    }
  }

  /** The rules in the order of their precedence, for every iteration order of the vote map. */
  lemma Precedence(s: Signals, order: seq<string>)
    requires IsOrder(s, order)
    ensures var d := DecideBy(s, order);
            if s.isIPInput && s.asnCC == "" && s.rdapCC == "" then
              d == if s.ipCC != "" then Decision(s.ipCC, IPOnly) else Decision("", Unknown)
            else if TwoAgree(s) then d.tier.High?
            else if s.asnCC != "" then d == Decision(s.asnCC, HighASNBrand)
            else if s.rdapCC != "" then d == Decision(s.rdapCC, HighRDAPRegistrant)
            else if s.dnsFailed then
              d == if s.domainCC != "" then Decision(s.domainCC, LowDNSFailed) else Decision("", Unknown)
            else if s.domainCC == "ID" then
              d == Decision("ID", if s.ipCC != "" then MediumDomainIDOffshore else LowDNSFailed)
            else if s.domainCC != "" then
              d == Decision(s.domainCC, if s.ipCC != "" then MediumDomainCCMismatch else LowDNSFailed)
            else if s.ipCC == "ID" then
              d == Decision("ID", if s.domainType in {"generic", ""} then MediumGenericTLDIDHost else IPOnly)
            else d == if s.ipCC != "" then Decision(s.ipCC, IPOnly) else Decision("", Unknown)
  {
    HighIffTwoAgree(s, order);
    hide LeaderVotes, Leader, IsOrder, Votes;
  }

  /** "high" is only ever answered for a country that at least two signals name, and that no other
      country outvotes. */
  lemma HighHasTwoVotes(s: Signals, order: seq<string>, other: string)
    requires IsOrder(s, order) && DecideBy(s, order).tier.High? && other != ""
    ensures var cc := DecideBy(s, order).country;
            cc != "" && Votes(s, cc) >= 2 && Votes(s, other) <= Votes(s, cc)
  {
    NamedHaveVotes(s, order);
    if other in order {
      LeaderLeads(s, order, other);
    } else {
      assert other !in Named(s);
      assert other !in Ballots(s);
      assert other != Ballots(s)[0] && other != Ballots(s)[1] && other != Ballots(s)[2] && other != Ballots(s)[3];
    }
  }

  /** The signal a tier names; high names the winner of the vote. */
  function NamedSignal(s: Signals, d: Decision): string {
    match d.tier
    case HighASNBrand => s.asnCC
    case HighRDAPRegistrant => s.rdapCC
    case MediumDomainIDOffshore => s.domainCC
    case MediumDomainCCMismatch => s.domainCC
    case LowDNSFailed => s.domainCC
    case MediumGenericTLDIDHost => s.ipCC
    case IPOnly => s.ipCC
    case High => d.country
    case _ => ""
  }

  /** The signals that name a country, one by one. */
  lemma NamedOf(s: Signals)
    ensures Named(s) == (if s.domainCC != "" then {s.domainCC} else {}) + (if s.ipCC != "" then {s.ipCC} else {})
                      + (if s.asnCC != "" then {s.asnCC} else {}) + (if s.rdapCC != "" then {s.rdapCC} else {})
  {
    var b := Ballots(s);
    assert forall cc :: cc in b <==> cc == b[0] || cc == b[1] || cc == b[2] || cc == b[3];
  }

  lemma FallbackIsSupported(s: Signals)
    ensures var d := Fallback(s);
            && d.country == NamedSignal(s, d) && (d.country == "" <==> d.tier.Unknown?) && !d.tier.Unset?
            && (d.tier.Unknown? && Named(s) != {} ==> s.dnsFailed && Named(s) == {s.ipCC})
  {
    NamedOf(s);
    hide Named;
  }

  /** Every decision's country is that of the signal its tier names, and is empty exactly when the tier
      is unknown. The tier is unknown although some signal names a country only when DNS failed and that
      signal is the IP's, or the input is a raw IP and that signal is the domain's. */
  lemma DecisionIsSupported(s: Signals, order: seq<string>)
    requires IsOrder(s, order)
    ensures var d := DecideBy(s, order);
            && d.country == NamedSignal(s, d) && (d.country == "" <==> d.tier.Unknown?) && !d.tier.Unset?
            && (d.tier.Unknown? && Named(s) != {} ==>
                  (s.dnsFailed && Named(s) == {s.ipCC}) || (RawIP(s) && Named(s) == {s.domainCC}))
  {
    NamedHaveVotes(s, order);
    assert LeaderVotes(s, order) >= 2 ==> Leader(s, order) != "";
    hide Votes, Leader, LeaderVotes, IsOrder, Fallback, Named;
    FallbackIsSupported(s);
    if RawIP(s) {
      NamedOf(s);
    }
  }
}
