/** Registrant country from an RDAP entity tree (internal/rdap/parse.go), over decoded JSON. */
module Rdap {
  import opened Wrappers

  datatype Info = Info(country: string, org: string)

  /** One jCard property, as far as it is looked at; values are None when they do not decode as text.
      The last element of an adr value is present only when the value has seven elements. */
  datatype Property =
    | NameOrOrg(text: Option<string>)
    | Adr(cc: Option<string>, last: Option<string>)
    | OtherProperty

  datatype Entity = Entity(roles: seq<string>, vcard: seq<Property>, entities: seq<Entity>)

  /** Library predicates: case-insensitive equality with a role name, and the privacy-proxy pattern. */
  datatype Library = Library(equalFold: (string, string) -> bool, isPrivacyProxy: string -> bool)

  predicate HasRole(lib: Library, roles: seq<string>, want: string) {
    exists r <- roles :: lib.equalFold(r, want)
  }

  // ----- vcardCountry -----

  predicate Alpha2(s: Option<string>) { s.Some? && |s.value| == 2 }

  /** The last two-letter cc parameter of the properties. */
  function LastCC(ps: seq<Property>): Option<string> {
    if ps == [] then None
    else
      var p := ps[|ps| - 1];
      if p.Adr? && Alpha2(p.cc) then p.cc else LastCC(ps[..|ps| - 1])
  }

  /** The first two-letter country name. */
  function FirstName(ps: seq<Property>): Option<string> {
    if ps == [] then None
    else
      var before := FirstName(ps[..|ps| - 1]);
      var p := ps[|ps| - 1];
      if before.Some? then before else if p.Adr? && Alpha2(p.last) then p.last else None
  }

  function FirstOrg(ps: seq<Property>): string {
    if ps == [] then ""
    else
      var before := FirstOrg(ps[..|ps| - 1]);
      var p := ps[|ps| - 1];
      if before != "" then before else if p.NameOrOrg? && p.text.Some? then p.text.value else ""
  }

  /** What a card says: the last cc parameter decides, not the first address; only without any
      does the first two-letter country name count. */
  function CardInfo(ps: seq<Property>): Option<Info> {
    if LastCC(ps).Some? then Some(Info(LastCC(ps).value, FirstOrg(ps)))
    else if FirstName(ps).Some? then Some(Info(FirstName(ps).value, FirstOrg(ps)))
    else None
  }

  /** The last two-letter cc parameter, wherever it stands, is the country. */
  lemma {:induction false} LastCCDecides(ps: seq<Property>, i: nat)
    requires i < |ps| && ps[i].Adr? && Alpha2(ps[i].cc)
    requires forall j :: i < j < |ps| ==> !(ps[j].Adr? && Alpha2(ps[j].cc))
    ensures CardInfo(ps) == Some(Info(ps[i].cc.value, FirstOrg(ps)))
    decreases |ps|
  {
    if i < |ps| - 1 {
      LastCCDecides(ps[..|ps| - 1], i);
    }
  }

  lemma {:induction false} NoCC(ps: seq<Property>)
    requires forall j :: 0 <= j < |ps| ==> !(ps[j].Adr? && Alpha2(ps[j].cc))
    ensures LastCC(ps) == None
    decreases |ps|
  {
    if ps != [] {
      NoCC(ps[..|ps| - 1]);
    }
  }

  lemma {:induction false} FirstNameIs(ps: seq<Property>)
    ensures FirstName(ps).None? <==> forall j :: 0 <= j < |ps| ==> !(ps[j].Adr? && Alpha2(ps[j].last))
    ensures forall i :: 0 <= i < |ps| && ps[i].Adr? && Alpha2(ps[i].last)
                        && (forall j :: 0 <= j < i ==> !(ps[j].Adr? && Alpha2(ps[j].last)))
              ==> FirstName(ps) == ps[i].last
    decreases |ps|
  {
    if ps != [] {
      var front, p := ps[..|ps| - 1], ps[|ps| - 1];
      FirstNameIs(front);
      assert FirstName(ps) == if FirstName(front).Some? then FirstName(front)
                              else if p.Adr? && Alpha2(p.last) then p.last else None;
      hide FirstName, Alpha2;
      assert forall j :: 0 <= j < |front| ==> front[j] == ps[j];
    }
  }

  /** Without any cc parameter the first two-letter country name is the country; without one of those either
      the card has none. */
  lemma FirstNameDecides(ps: seq<Property>)
    requires forall j :: 0 <= j < |ps| ==> !(ps[j].Adr? && Alpha2(ps[j].cc))
    ensures CardInfo(ps).None? <==> forall j :: 0 <= j < |ps| ==> !(ps[j].Adr? && Alpha2(ps[j].last))
    ensures forall i :: 0 <= i < |ps| && ps[i].Adr? && Alpha2(ps[i].last)
                        && (forall j :: 0 <= j < i ==> !(ps[j].Adr? && Alpha2(ps[j].last)))
              ==> CardInfo(ps) == Some(Info(ps[i].last.value, FirstOrg(ps)))
  {
    NoCC(ps);
    FirstNameIs(ps);
    hide LastCC, FirstName, FirstOrg;
  }

  predicate Names(p: Property) { p.NameOrOrg? && p.text.Some? && p.text.value != "" }

  /** The organisation is the first nonempty name or organisation, and empty when there is none. */
  lemma {:induction false} FirstOrgIs(ps: seq<Property>)
    ensures FirstOrg(ps) == "" <==> forall j :: 0 <= j < |ps| ==> !Names(ps[j])
    ensures forall i :: 0 <= i < |ps| && Names(ps[i]) && (forall j :: 0 <= j < i ==> !Names(ps[j]))
              ==> FirstOrg(ps) == ps[i].text.value
    decreases |ps|
  {
    if ps != [] {
      FirstOrgIs(ps[..|ps| - 1]);
    }
  }

  method VcardCountry(ps: seq<Property>) returns (info: Info, ok: bool)
    ensures ok <==> CardInfo(ps).Some?
    ensures ok ==> Some(info) == CardInfo(ps)
    ensures !ok ==> info.country == ""
  {
    info, ok := Info("", ""), false;
    for i := 0 to |ps|
      invariant info.org == FirstOrg(ps[..i])
      invariant ok <==> CardInfo(ps[..i]).Some?
      invariant if ok then Some(info) == CardInfo(ps[..i]) else info.country == ""
    {
      var p := ps[i];
      assert ps[..i + 1][..i] == ps[..i];
      match p
      case NameOrOrg(text) =>
        if info.org == "" && text.Some? {
          info := info.(org := text.value);
        }
      case Adr(cc, last) =>
        if cc.Some? && |cc.value| == 2 {
          info := info.(country := cc.value);
          ok := true;
        }
        if !ok && last.Some? && |last.value| == 2 {
          info := info.(country := last.value);
          ok := true;
        }
      case OtherProperty =>
    }
    assert ps[..|ps|] == ps;
  }

  /** Of two addresses with different cc parameters the second decides. */
  lemma LastAddressWins()
    ensures CardInfo([Adr(Some("US"), None), Adr(Some("ID"), None)]) == Some(Info("ID", ""))
  {
    var ps := [Adr(Some("US"), None), Adr(Some("ID"), None)];
    assert ps[..1] == [ps[0]] && ps[..1][..0] == [];
    assert LastCC(ps) == Some("ID") && FirstOrg(ps) == "";
  }

  // ----- walkEntities -----

  /** A registrant's card that names a privacy proxy. */
  predicate Vetoes(lib: Library, e: Entity) {
    && HasRole(lib, e.roles, "registrant") && CardInfo(e.vcard).Some?
    && lib.isPrivacyProxy(CardInfo(e.vcard).value.org)
  }

  /** Outcome of the first pass: a find, a veto that ends the walk of this list, or nothing. */
  datatype Pass = Found(info: Info) | Vetoed | Missed

  /** Accepted by the second pass. */
  predicate Secondary(lib: Library, e: Entity) {
    && CardInfo(e.vcard).Some? && !lib.isPrivacyProxy(CardInfo(e.vcard).value.org)
    && !HasRole(lib, e.roles, "registrar")
  }

  function SecondPass(lib: Library, ents: seq<Entity>): Option<Info>
    decreases |ents|
  {
    if ents == [] then None
    else if Secondary(lib, ents[0]) then CardInfo(ents[0].vcard)
    else SecondPass(lib, ents[1..])
  }

  function Walk(lib: Library, ents: seq<Entity>): Option<Info>
    decreases ents, 1
  {
    match FirstPass(lib, ents)
    case Found(info) => Some(info)
    case Vetoed => None
    case Missed => SecondPass(lib, ents)
  }

  function FirstPass(lib: Library, ents: seq<Entity>): Pass
    decreases ents, 0
  {
    if ents == [] then Missed
    else
      var e := ents[0];
      if HasRole(lib, e.roles, "registrant") && CardInfo(e.vcard).Some? then
        if Vetoes(lib, e) then Vetoed else Found(CardInfo(e.vcard).value)
      else
        var inner := Walk(lib, e.entities);
        if inner.Some? then Found(inner.value) else FirstPass(lib, ents[1..])
  }

  // ----- entities of a tree -----

  ghost predicate Within(e: Entity, ents: seq<Entity>)
    decreases ents
  {
    exists i :: 0 <= i < |ents| && (e == ents[i] || Within(e, ents[i].entities))
  }

  /** May supply the answer: has a country, is no privacy proxy, and is a registrant or not a registrar. */
  predicate Eligible(lib: Library, e: Entity) {
    && CardInfo(e.vcard).Some? && !lib.isPrivacyProxy(CardInfo(e.vcard).value.org)
    && (HasRole(lib, e.roles, "registrant") || !HasRole(lib, e.roles, "registrar"))
  }

  lemma WithinTail(e: Entity, ents: seq<Entity>)
    requires ents != []
    ensures Within(e, ents) <==> e == ents[0] || Within(e, ents[0].entities) || Within(e, ents[1..])
  {
  }

  lemma {:induction false} SecondPassIsSound(lib: Library, ents: seq<Entity>) returns (e: Entity)
    requires SecondPass(lib, ents).Some?
    ensures Within(e, ents) && Eligible(lib, e) && SecondPass(lib, ents) == CardInfo(e.vcard)
    decreases |ents|
  {
    if Secondary(lib, ents[0]) {
      e := ents[0];
    } else {
      e := SecondPassIsSound(lib, ents[1..]);
    }
    WithinTail(e, ents);
  }

  /** The answer is the data of an eligible entity of the tree. */
  lemma {:induction false} WalkIsSound(lib: Library, ents: seq<Entity>) returns (e: Entity)
    requires Walk(lib, ents).Some?
    ensures Within(e, ents) && Eligible(lib, e) && Walk(lib, ents) == CardInfo(e.vcard)
    decreases ents, 1
  {
    match FirstPass(lib, ents)
    case Found(_) =>
      e := FirstPassIsSound(lib, ents);
    case Missed =>
      e := SecondPassIsSound(lib, ents);
  }

  lemma {:induction false} FirstPassIsSound(lib: Library, ents: seq<Entity>) returns (e: Entity)
    requires FirstPass(lib, ents).Found?
    ensures Within(e, ents) && Eligible(lib, e) && Some(FirstPass(lib, ents).info) == CardInfo(e.vcard)
    decreases ents, 0
  {
    var f := ents[0];
    if HasRole(lib, f.roles, "registrant") && CardInfo(f.vcard).Some? {
      e := f;
    } else if Walk(lib, f.entities).Some? {
      e := WalkIsSound(lib, f.entities);
    } else {
      e := FirstPassIsSound(lib, ents[1..]);
    }
    WithinTail(e, ents);
  }

  lemma {:induction false} FirstPassUnvetoed(lib: Library, ents: seq<Entity>)
    requires forall v :: Within(v, ents) ==> !Vetoes(lib, v)
    ensures !FirstPass(lib, ents).Vetoed?
    decreases |ents|
  {
    if ents != [] {
      WithinTail(ents[0], ents);
      forall v | Within(v, ents[1..])
        ensures !Vetoes(lib, v)
      {
        WithinTail(v, ents);
      }
      FirstPassUnvetoed(lib, ents[1..]);
    }
  }

  lemma {:induction false} SecondPassFinds(lib: Library, ents: seq<Entity>, e: Entity)
    requires e in ents && Secondary(lib, e)
    ensures SecondPass(lib, ents).Some?
    decreases |ents|
  {
    if !Secondary(lib, ents[0]) {
      SecondPassFinds(lib, ents[1..], e);
    }
  }

  /** Without a veto anywhere in the tree, an eligible entity at any depth makes the walk succeed. */
  lemma {:induction false} WalkIsComplete(lib: Library, ents: seq<Entity>, e: Entity)
    requires Within(e, ents) && Eligible(lib, e)
    requires forall v :: Within(v, ents) ==> !Vetoes(lib, v)
    ensures Walk(lib, ents).Some?
    decreases ents, 1
  {
    FirstPassUnvetoed(lib, ents);
    if FirstPass(lib, ents).Missed? {
      FirstPassMisses(lib, ents, e);
      SecondPassFinds(lib, ents, e);
    }
  }

  /** When the first pass misses, an eligible entity can only be in the list itself, and not as a registrant. */
  lemma {:induction false} FirstPassMisses(lib: Library, ents: seq<Entity>, e: Entity)
    requires Within(e, ents) && Eligible(lib, e) && FirstPass(lib, ents).Missed?
    requires forall v :: Within(v, ents) ==> !Vetoes(lib, v)
    ensures e in ents && Secondary(lib, e)
    decreases ents, 0
  {
    WithinTail(e, ents);
    forall v | Within(v, ents[1..]) || Within(v, ents[0].entities)
      ensures !Vetoes(lib, v)
    {
      WithinTail(v, ents);
    }
    if Within(e, ents[0].entities) {
      WalkIsComplete(lib, ents[0].entities, e);
    }
    if e != ents[0] {
      FirstPassMisses(lib, ents[1..], e);
    }
  }

  // ----- whom the walk prefers -----

  /** ents[i] is the first registrant of the list that has a country. */
  predicate FirstRegistrant(lib: Library, ents: seq<Entity>, i: nat) {
    && i < |ents| && HasRole(lib, ents[i].roles, "registrant") && CardInfo(ents[i].vcard).Some?
    && forall j :: 0 <= j < i ==> !(HasRole(lib, ents[j].roles, "registrant") && CardInfo(ents[j].vcard).Some?)
  }

  /** The first find among the entities nested in those of a list. */
  function FirstInner(lib: Library, ents: seq<Entity>): Option<Info> {
    if ents == [] then None
    else if Walk(lib, ents[0].entities).Some? then Walk(lib, ents[0].entities)
    else FirstInner(lib, ents[1..])
  }

  /** Below one of the entities of a list, and not itself in the list. */
  ghost predicate Nested(e: Entity, ents: seq<Entity>) {
    exists j :: 0 <= j < |ents| && Within(e, ents[j].entities)
  }

  lemma NestedTail(e: Entity, ents: seq<Entity>)
    requires ents != []
    ensures Nested(e, ents) <==> Within(e, ents[0].entities) || Nested(e, ents[1..])
  {
    if Nested(e, ents[1..]) {
      var j :| 0 <= j < |ents| - 1 && Within(e, ents[1..][j].entities);
      assert Within(e, ents[j + 1].entities);
    }
    if Nested(e, ents) && !Within(e, ents[0].entities) {
      var j :| 0 <= j < |ents| && Within(e, ents[j].entities);
      assert Within(e, ents[1..][j - 1].entities);
    }
  }

  lemma {:induction false} FirstInnerIsSound(lib: Library, ents: seq<Entity>) returns (e: Entity)
    requires FirstInner(lib, ents).Some?
    ensures Nested(e, ents) && Eligible(lib, e) && FirstInner(lib, ents) == CardInfo(e.vcard)
    decreases |ents|
  {
    if Walk(lib, ents[0].entities).Some? {
      e := WalkIsSound(lib, ents[0].entities);
    } else {
      e := FirstInnerIsSound(lib, ents[1..]);
    }
    NestedTail(e, ents);
  }

  lemma {:induction false} FirstInnerIsComplete(lib: Library, ents: seq<Entity>, e: Entity)
    requires Nested(e, ents) && Eligible(lib, e)
    requires forall v :: Nested(v, ents) ==> !Vetoes(lib, v)
    ensures FirstInner(lib, ents).Some?
    decreases |ents|
  {
    hide Eligible, Vetoes;
    forall v | Within(v, ents[0].entities) || Nested(v, ents[1..])
      ensures !Vetoes(lib, v)
    {
      NestedTail(v, ents);
    }
    NestedTail(e, ents);
    if Within(e, ents[0].entities) {
      WalkIsComplete(lib, ents[0].entities, e);
    } else {
      FirstInnerIsComplete(lib, ents[1..], e);
    }
  }

  /** What a registrant with a country says: that country, or nothing for a privacy proxy. */
  function Verdict(lib: Library, e: Entity): Option<Info> {
    if Vetoes(lib, e) then None else CardInfo(e.vcard)
  }

  /** Some eligible entity nested in a list has this data. */
  ghost predicate SuppliedBelow(lib: Library, ents: seq<Entity>, info: Option<Info>) {
    exists e :: Nested(e, ents) && Eligible(lib, e) && CardInfo(e.vcard) == info
  }

  lemma {:induction false} FirstPassOutcome(lib: Library, ents: seq<Entity>, i: nat)
    requires FirstRegistrant(lib, ents, i)
    ensures FirstPass(lib, ents) ==
            match FirstInner(lib, ents[..i])
            case Some(info) => Found(info)
            case None => if Vetoes(lib, ents[i]) then Vetoed else Found(CardInfo(ents[i].vcard).value)
    decreases i
  {
    if i > 0 {
      var rest := ents[1..];
      assert rest[i - 1] == ents[i] && forall j :: 0 <= j < i - 1 ==> rest[j] == ents[j + 1];
      assert ents[..i][1..] == rest[..i - 1];
      if Walk(lib, ents[0].entities).None? {
        FirstPassOutcome(lib, rest, i - 1);
      }
    }
  }

  lemma RegistrantOrInner(lib: Library, ents: seq<Entity>, i: nat)
    requires FirstRegistrant(lib, ents, i)
    ensures var inner := FirstInner(lib, ents[..i]);
            Walk(lib, ents) == if inner.Some? then inner else Verdict(lib, ents[i])
  {
    FirstPassOutcome(lib, ents, i);
  }

  /** The list's first registrant decides, by its country or by its veto, when no eligible entity is nested
      in those listed before it; whatever else is answered is the data of such an entity. Where nothing
      nested there vetoes, the registrant decides only then: with an eligible entity there, the answer is
      the data of one. */
  lemma RegistrantDecides(lib: Library, ents: seq<Entity>, i: nat)
    requires FirstRegistrant(lib, ents, i)
    ensures var before, verdict := ents[..i], Verdict(lib, ents[i]);
            && ((forall e :: Nested(e, before) ==> !Eligible(lib, e)) ==> Walk(lib, ents) == verdict)
            && (Walk(lib, ents) != verdict ==> SuppliedBelow(lib, before, Walk(lib, ents)))
            && ((forall v :: Nested(v, before) ==> !Vetoes(lib, v)) ==>
                  if forall e :: Nested(e, before) ==> !Eligible(lib, e) then Walk(lib, ents) == verdict
                  else SuppliedBelow(lib, before, Walk(lib, ents)))
  {
    var before := ents[..i];
    RegistrantOrInner(lib, ents, i);
    hide Walk, FirstInner, Nested, Eligible, Vetoes, FirstRegistrant;
    if FirstInner(lib, before).Some? {
      var e := FirstInnerIsSound(lib, before);
    } else if forall v :: Nested(v, before) ==> !Vetoes(lib, v) {
      forall e | Nested(e, before)
        ensures !Eligible(lib, e)
      {
        if Eligible(lib, e) {
          FirstInnerIsComplete(lib, before, e);
        }
      }
    }
  }

  // ----- lists without a registrant -----

  /** A registrant whose card names a country. */
  predicate Decides(lib: Library, e: Entity) { HasRole(lib, e.roles, "registrant") && CardInfo(e.vcard).Some? }

  lemma {:induction false} FirstNestedFound(lib: Library, ents: seq<Entity>, j: nat)
    requires j < |ents| && Walk(lib, ents[j].entities).Some?
    requires forall k :: 0 <= k <= j ==> !Decides(lib, ents[k])
    requires forall k :: 0 <= k < j ==> Walk(lib, ents[k].entities).None?
    ensures FirstPass(lib, ents) == Found(Walk(lib, ents[j].entities).value)
    decreases j
  {
    if j > 0 {
      FirstNestedFound(lib, ents[1..], j - 1);
    }
  }

  /** Among the entities before any registrant, the first with a find below it gives the answer. */
  lemma {:induction false} FirstNestedWins(lib: Library, ents: seq<Entity>, j: nat)
    requires j < |ents| && Walk(lib, ents[j].entities).Some?
    requires forall k :: 0 <= k <= j ==> !Decides(lib, ents[k])
    requires forall k :: 0 <= k < j ==> Walk(lib, ents[k].entities).None?
    ensures Walk(lib, ents) == Walk(lib, ents[j].entities)
  {
    FirstNestedFound(lib, ents, j);
  }

  lemma {:induction false} FirstPassOfContacts(lib: Library, ents: seq<Entity>)
    requires forall k :: 0 <= k < |ents| ==> !Decides(lib, ents[k])
    ensures FirstPass(lib, ents) == if FirstInner(lib, ents).Some? then Found(FirstInner(lib, ents).value) else Missed
    decreases |ents|
  {
    if ents != [] {
      FirstPassOfContacts(lib, ents[1..]);
    }
  }

  lemma {:induction false} SecondPassTakesFirst(lib: Library, ents: seq<Entity>)
    ensures SecondPass(lib, ents).None? <==> forall k :: 0 <= k < |ents| ==> !Secondary(lib, ents[k])
    ensures forall i :: 0 <= i < |ents| && Secondary(lib, ents[i])
                        && (forall k :: 0 <= k < i ==> !Secondary(lib, ents[k]))
              ==> SecondPass(lib, ents) == CardInfo(ents[i].vcard)
    decreases |ents|
  {
    if ents != [] {
      var rest := ents[1..];
      SecondPassTakesFirst(lib, rest);
      assert forall k :: 0 < k < |ents| ==> ents[k] == rest[k - 1];
      assert forall k :: 0 <= k < |rest| ==> rest[k] == ents[k + 1];
      hide Secondary, CardInfo;
      forall i | 0 <= i < |ents| && Secondary(lib, ents[i]) && (forall k :: 0 <= k < i ==> !Secondary(lib, ents[k]))
        ensures SecondPass(lib, ents) == CardInfo(ents[i].vcard)
      {
        if i > 0 {
          assert Secondary(lib, rest[i - 1]);
        }
      }
    }
  }

  /** A list in which no registrant has a country. With nothing eligible nested in it, the first of its
      entities that has a country, is no privacy proxy and no registrar is the answer, and there is none
      without such an entity. With something eligible and no veto nested in it, the answer is from there. */
  lemma FirstContactAnswers(lib: Library, ents: seq<Entity>)
    requires forall k :: 0 <= k < |ents| ==> !Decides(lib, ents[k])
    ensures (forall e :: Nested(e, ents) ==> !Eligible(lib, e)) ==>
              && (Walk(lib, ents).None? <==> forall k :: 0 <= k < |ents| ==> !Secondary(lib, ents[k]))
              && forall i :: 0 <= i < |ents| && Secondary(lib, ents[i])
                             && (forall k :: 0 <= k < i ==> !Secondary(lib, ents[k]))
                   ==> Walk(lib, ents) == CardInfo(ents[i].vcard)
    ensures (exists e :: Nested(e, ents) && Eligible(lib, e)) && (forall v :: Nested(v, ents) ==> !Vetoes(lib, v)) ==>
              SuppliedBelow(lib, ents, Walk(lib, ents))
  {
    FirstPassOfContacts(lib, ents);
    SecondPassTakesFirst(lib, ents);
    hide FirstPass, SecondPass, FirstInner, Nested, Eligible, Vetoes, Secondary, Decides, CardInfo;
    if FirstInner(lib, ents).Some? {
      var e := FirstInnerIsSound(lib, ents);
    } else if forall v :: Nested(v, ents) ==> !Vetoes(lib, v) {
      forall e | Nested(e, ents)
        ensures !Eligible(lib, e)
      {
        if Eligible(lib, e) {
          FirstInnerIsComplete(lib, ents, e);
        }
      }
    }
  }

  // ----- counterexamples -----

  function ContactOf(roles: seq<string>, cc: string, inner: seq<Entity>): Entity {
    Entity(roles, [Adr(Some(cc), None)], inner)
  }

  /** The role comparisons and the privacy-proxy match that the two trees below come to. */
  ghost predicate TellsRolesApart(lib: Library) {
    && lib.equalFold("registrant", "registrant") && lib.equalFold("registrar", "registrar")
    && !lib.equalFold("registrar", "registrant") && !lib.equalFold("abuse", "registrant")
    && !lib.equalFold("abuse", "registrar")
    && !lib.isPrivacyProxy("") && lib.isPrivacyProxy("Cloudflare")
  }

  lemma OneRole(lib: Library, role: string, want: string)
    ensures HasRole(lib, [role], want) <==> lib.equalFold(role, want)
  {
    assert [role][0] == role;
  }

  lemma CardOf(cc: string)
    requires |cc| == 2
    ensures CardInfo([Adr(Some(cc), None)]) == Some(Info(cc, ""))
  {
    var ps := [Adr(Some(cc), None)];
    assert ps[..0] == [];
    assert LastCC(ps) == Some(cc) && FirstOrg(ps) == "";
  }

  lemma WalkOne(lib: Library, e: Entity)
    requires !HasRole(lib, e.roles, "registrant") && Secondary(lib, e) && e.entities == []
    ensures Walk(lib, [e]) == CardInfo(e.vcard)
  {
    assert [e][1..] == [];
    assert Walk(lib, []) == None;
  }

  /** A contact nested in the registrar's entry beats the registrant listed after it. */
  lemma RegistrantCanLose(lib: Library)
    requires TellsRolesApart(lib)
    ensures Walk(lib, [ContactOf(["registrar"], "US", [ContactOf(["abuse"], "US", [])]),
                       ContactOf(["registrant"], "ID", [])]) == Some(Info("US", ""))
  {
    var abuse := ContactOf(["abuse"], "US", []);
    var registrar := ContactOf(["registrar"], "US", [abuse]);
    var registrant := ContactOf(["registrant"], "ID", []);
    CardOf("US");
    CardOf("ID");
    OneRole(lib, "abuse", "registrant");
    OneRole(lib, "abuse", "registrar");
    OneRole(lib, "registrar", "registrant");
    WalkOne(lib, abuse);
    hide HasRole, CardInfo;
    assert Walk(lib, registrar.entities) == Some(Info("US", ""));
    assert FirstPass(lib, [registrar, registrant]) == Found(Info("US", ""));
  }

  /** A veto inside a nested list does not end the walk outside it. */
  lemma NestedVetoIsLocal(lib: Library)
    requires TellsRolesApart(lib)
    ensures Walk(lib, [Entity(["registrar"], [],
                              [Entity(["registrant"], [NameOrOrg(Some("Cloudflare")), Adr(Some("US"), None)], [])]),
                       ContactOf(["registrant"], "ID", [])]) == Some(Info("ID", ""))
  {
    var card := [NameOrOrg(Some("Cloudflare")), Adr(Some("US"), None)];
    var proxied := Entity(["registrant"], card, []);
    var host := Entity(["registrar"], [], [proxied]);
    var registrant := ContactOf(["registrant"], "ID", []);
    CardOf("ID");
    assert card[..1] == [NameOrOrg(Some("Cloudflare"))] && card[..1][..0] == [];
    assert CardInfo(card) == Some(Info("US", "Cloudflare"));
    OneRole(lib, "registrant", "registrant");
    OneRole(lib, "registrar", "registrant");
    hide HasRole;
    assert Vetoes(lib, proxied);
    assert FirstPass(lib, [proxied]) == Vetoed;
    assert Walk(lib, host.entities) == None;
    assert [host, registrant][1..] == [registrant];
    assert FirstPass(lib, [registrant]) == Found(Info("ID", ""));
  }
}
