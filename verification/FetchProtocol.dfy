/** The conditional-GET cache as a protocol over durable state (internal/cache/fetch.go,
    internal/cache/store.go): one fetch at a time for a key, an origin that changes, a process
    that can fail or be killed between any two steps, deletions, and power loss.

    A rename is visible at once but may be lost until the directory is synced; the contents of
    a file may be cut short until the file is synced. */
module FetchProtocol {
  import opened Wrappers

  type Bytes = string

  /** What the origin serves at one time. Absent validators are empty strings. */
  datatype Resource = Resource(body: Bytes, etag: string, lastMod: string)

  datatype Meta = Meta(etag: string, lastMod: string, sha256: string, fetchedAt: int, bytes: int)

  /** The conditional headers of a request; "" stands for an absent header. */
  datatype Request = Request(ifNoneMatch: string, ifModifiedSince: string)

  /** The world outside: when the origin may answer 304, SHA-256, and the JSON codec. */
  datatype Env = Env(
    notModified: (Request, Resource) -> bool,
    sha256: Bytes -> string,
    marshal: Meta -> Bytes,
    unmarshal: Bytes -> Option<Meta>)
  {
    ghost predicate Sound() { forall m :: unmarshal(marshal(m)) == Some(m) }
  }

  /** A file. ver is bookkeeping that no step looks at: which version of the origin the data is from. */
  datatype File = File(data: Bytes, synced: bool, ver: nat)

  /** A directory entry: what is there now, and what may be there after power is lost. */
  datatype Slot = Slot(now: Option<File>, crash: set<Option<File>>)

  /** Progress of one AtomicWrite. */
  datatype Stage = Start | Open(written: Bytes) | Synced | Renamed

  datatype Phase =
    | Idle
    | MetaRead(found: Option<(Meta, nat)>)
    | Ready(found: Option<(Meta, nat)>)
    | Told304(meta: Meta, metaVer: nat, at: nat)
    | SavingBody(res: Resource, at: nat, stage: Stage)
    | SavingMeta(body: Bytes, at: nat, meta: Meta, metaVer: nat, stage: Stage)

  /** A successful Fetch: the body returned and the version current when the origin answered. */
  datatype Outcome = Outcome(body: Bytes, at: nat)

  datatype State = State(
    history: seq<Resource>,
    raw: Slot,
    meta: Slot,
    stale: set<(Option<File>, Option<File>)>,
    phase: Phase,
    done: seq<Outcome>)

  const EMPTY := Slot(None, {None})
  const INIT := State([], EMPTY, EMPTY, {}, Idle, [])

  datatype Target = Raw | Sidecar

  datatype Action =
    | Publish(res: Resource)
    | ReadMeta
    | StatRaw
    | Unreadable
    | Answer200
    | Answer304
    | ReadRaw(now: int)
    | OpenTmp
    | WriteTmp(n: nat)
    | SyncTmp
    | Rename
    | SyncDir(now: int)
    | Fail
    | Delete(target: Target)
    | ReplaceDir
    | PowerLoss(raw: Option<File>, meta: Option<File>)

  function RequestFor(found: Option<(Meta, nat)>): Request {
    if found.None? then Request("", "") else Request(found.value.0.etag, found.value.0.lastMod)
  }

  function RequestAfter(r: Resource): Request { Request(r.etag, r.lastMod) }

  function MetaFor(env: Env, r: Resource, now: int): Meta {
    Meta(r.etag, r.lastMod, env.sha256(r.body), now, |r.body|)
  }

  function Put(slot: Slot, f: Option<File>): Slot { Slot(f, slot.crash + {f}) }
  function Settle(slot: Slot): Slot { Slot(slot.now, {slot.now}) }

  /** What a crash leaves of a file: all of it when synced, otherwise any prefix. */
  predicate Survives(before: Option<File>, after: Option<File>) {
    if before.None? then after.None?
    else
      && after.Some? && after.value.synced && after.value.ver == before.value.ver
      && after.value.data <= before.value.data
      && (before.value.synced ==> after.value.data == before.value.data)
  }

  /** The directory states a crash may bring back: any mix of pending entries, or a whole old directory. */
  predicate MayRemain(s: State, raw: Option<File>, meta: Option<File>) {
    || (exists r, m :: r in s.raw.crash && m in s.meta.crash && Survives(r, raw) && Survives(m, meta))
    || (exists p :: p in s.stale && Survives(p.0, raw) && Survives(p.1, meta))
  }

  /** The data an AtomicWrite in progress is to store. */
  function Payload(env: Env, p: Phase): Bytes
    requires p.SavingBody? || p.SavingMeta?
  {
    if p.SavingBody? then p.res.body else env.marshal(p.meta)
  }

  function Version(p: Phase): nat
    requires p.SavingBody? || p.SavingMeta?
  {
    if p.SavingBody? then p.at else p.metaVer
  }

  function At(p: Phase, stage: Stage): Phase
    requires p.SavingBody? || p.SavingMeta?
  {
    match p
    case SavingBody(res, at, _) => SavingBody(res, at, stage)
    case SavingMeta(body, at, m, ver, _) => SavingMeta(body, at, m, ver, stage)
  }

  function Step(env: Env, s: State, a: Action): Option<State> {
    var p := s.phase;
    match a
    case Publish(r) => Some(s.(history := s.history + [r]))
    case ReadMeta =>
      if !p.Idle? then None
      else
        var f := s.meta.now;
        var m := if f.Some? then env.unmarshal(f.value.data) else None;
        Some(s.(phase := MetaRead(if m.Some? then Some((m.value, f.value.ver)) else None)))
    case StatRaw =>
      if !p.MetaRead? then None
      else Some(s.(phase := Ready(if s.raw.now.Some? then p.found else None)))
    case Unreadable =>  // reading the sidecar, or finding the body, fails; readMetaOk makes nothing of it
      if p.Idle? then Some(s.(phase := MetaRead(None)))
      else if p.MetaRead? then Some(s.(phase := Ready(None)))
      else None
    case Answer200 =>
      if !p.Ready? || s.history == [] then None
      else
        var at := |s.history| - 1;
        Some(s.(phase := SavingBody(s.history[at], at, Start)))
    case Answer304 =>
      if !p.Ready? || p.found.None? || s.history == [] then None
      else
        var at := |s.history| - 1;
        if !env.notModified(RequestFor(p.found), s.history[at]) then None
        else Some(s.(phase := Told304(p.found.value.0, p.found.value.1, at)))
    case ReadRaw(now) =>
      if !p.Told304? || s.raw.now.None? then None
      else
        Some(s.(phase := SavingMeta(s.raw.now.value.data, p.at, p.meta.(fetchedAt := now), p.metaVer, Start)))
    case OpenTmp =>
      if (p.SavingBody? || p.SavingMeta?) && p.stage.Start? then Some(s.(phase := At(p, Open("")))) else None
    case WriteTmp(n) =>
      if (p.SavingBody? || p.SavingMeta?) && p.stage.Open? && n <= |Payload(env, p)|
      then Some(s.(phase := At(p, Open(Payload(env, p)[..n])))) else None
    case SyncTmp =>
      if (p.SavingBody? || p.SavingMeta?) && p.stage == Open(Payload(env, p))
      then Some(s.(phase := At(p, Synced))) else None
    case Rename =>
      if (p.SavingBody? || p.SavingMeta?) && p.stage.Synced? then
        var f := Some(File(Payload(env, p), true, Version(p)));
        var t := s.(phase := At(p, Renamed));
        Some(if p.SavingBody? then t.(raw := Put(s.raw, f)) else t.(meta := Put(s.meta, f)))
      else None
    case SyncDir(now) =>
      if (p.SavingBody? || p.SavingMeta?) && p.stage.Renamed? then
        var t := s.(raw := Settle(s.raw), meta := Settle(s.meta));
        Some(if p.SavingBody? then t.(phase := SavingMeta(p.res.body, p.at, MetaFor(env, p.res, now), p.at, Start))
             else t.(phase := Idle, done := s.done + [Outcome(p.body, p.at)]))
      else None
    case Fail => Some(s.(phase := Idle))
    case Delete(t) =>
      Some(if t.Raw? then s.(raw := Put(s.raw, None)) else s.(meta := Put(s.meta, None)))
    case ReplaceDir =>
      if s.raw.now.Some? || s.meta.now.Some? then None
      else
        Some(s.(raw := EMPTY, meta := EMPTY,
                stale := s.stale + (set r, m | r in s.raw.crash && m in s.meta.crash :: (r, m))))
    case PowerLoss(r, m) =>
      if !MayRemain(s, r, m) then None
      else Some(State(s.history, Slot(r, {r}), Slot(m, {m}), {}, Idle, s.done))
  }

  function Run(env: Env, s: State, actions: seq<Action>): Option<State>
    decreases |actions|
  {
    if actions == [] then Some(s)
    else
      var t := Step(env, s, actions[0]);
      if t.None? then None else Run(env, t.value, actions[1..])
  }

  // ----- the invariant -----

  /** A stored body: complete, synced, and some version of the origin. */
  ghost predicate GoodBody(s: State, f: Option<File>) {
    f.Some? ==> f.value.synced && f.value.ver < |s.history| && f.value.data == s.history[f.value.ver].body
  }

  /** m carries the validators, the hash and the length of version ver. */
  ghost predicate Describes(env: Env, s: State, m: Meta, ver: nat) {
    && ver < |s.history| && m.etag == s.history[ver].etag && m.lastMod == s.history[ver].lastMod
    && m.sha256 == env.sha256(s.history[ver].body) && m.bytes == |s.history[ver].body|
  }

  ghost predicate GoodMeta(env: Env, s: State, f: Option<File>) {
    f.Some? ==>
      && f.value.synced && env.unmarshal(f.value.data).Some?
      && Describes(env, s, env.unmarshal(f.value.data).value, f.value.ver)
  }

  /** Never new meta beside an old body. */
  ghost predicate InOrder(r: Option<File>, m: Option<File>) {
    r.Some? && m.Some? ==> m.value.ver <= r.value.ver
  }

  ghost predicate BodiesSince(s: State, ver: nat) {
    forall r :: r in s.raw.crash && r.Some? ==> ver <= r.value.ver
  }

  ghost predicate BodiesUpTo(s: State, ver: nat) {
    forall r :: r in s.raw.crash && r.Some? ==> r.value.ver <= ver
  }

  ghost predicate MetasUpTo(s: State, ver: nat) {
    forall m :: m in s.meta.crash && m.Some? ==> m.value.ver <= ver
  }

  /** body is what version at held, or what some version k held that lies between a version i
      and at, where at was taken for unmodified since i. */
  ghost predicate Explained(env: Env, h: seq<Resource>, body: Bytes, at: nat) {
    && at < |h|
    && (body == h[at].body
        || exists i, k :: 0 <= i <= k <= at && env.notModified(RequestAfter(h[i]), h[at]) && body == h[k].body)
  }

  ghost predicate FilesOk(env: Env, s: State) {
    && s.raw.now in s.raw.crash && s.meta.now in s.meta.crash
    && (forall r :: r in s.raw.crash ==> GoodBody(s, r))
    && (forall m :: m in s.meta.crash ==> GoodMeta(env, s, m))
    && (forall r, m :: r in s.raw.crash && m in s.meta.crash ==> InOrder(r, m))
    && (forall p :: p in s.stale ==> GoodBody(s, p.0) && GoodMeta(env, s, p.1) && InOrder(p.0, p.1))
  }

  ghost predicate PhaseOk(env: Env, s: State) {
    match s.phase
    case Idle => true
    case MetaRead(found) =>
      found.Some? ==> Describes(env, s, found.value.0, found.value.1) && BodiesSince(s, found.value.1)
    case Ready(found) =>
      found.Some? ==> Describes(env, s, found.value.0, found.value.1) && BodiesSince(s, found.value.1)
    case Told304(m, ver, at) =>
      && Describes(env, s, m, ver) && BodiesSince(s, ver) && BodiesUpTo(s, at) && ver <= at < |s.history|
      && env.notModified(RequestAfter(s.history[ver]), s.history[at])
    case SavingBody(res, at, stage) =>
      && at < |s.history| && res == s.history[at] && MetasUpTo(s, at)
      && (stage.Renamed? ==> s.raw.now.None? || s.raw.now.value.ver == at)
    case SavingMeta(body, at, m, ver, _) =>
      Describes(env, s, m, ver) && BodiesSince(s, ver) && Explained(env, s.history, body, at)
  }

  ghost predicate Inv(env: Env, s: State) {
    && FilesOk(env, s) && PhaseOk(env, s)
    && forall o <- s.done :: Explained(env, s.history, o.body, o.at)
  }

  // ----- every step keeps the invariant -----

  lemma ExplainedLater(env: Env, h: seq<Resource>, r: Resource, body: Bytes, at: nat)
    requires Explained(env, h, body, at)
    ensures Explained(env, h + [r], body, at)
  {
    var g := h + [r];
    if body != h[at].body {
      var i, k :| 0 <= i <= k <= at && env.notModified(RequestAfter(h[i]), h[at]) && body == h[k].body;
      assert g[i] == h[i] && g[k] == h[k] && g[at] == h[at];
    }
  }

  lemma PublishKeeps(env: Env, s: State, r: Resource)
    requires Inv(env, s)
    ensures Inv(env, Step(env, s, Publish(r)).value)
  {
    var t := Step(env, s, Publish(r)).value;
    assert forall i :: 0 <= i < |s.history| ==> t.history[i] == s.history[i];
    forall o | o in s.done
      ensures Explained(env, t.history, o.body, o.at)
    {
      ExplainedLater(env, s.history, r, o.body, o.at);
    }
    if s.phase.SavingMeta? {
      ExplainedLater(env, s.history, r, s.phase.body, s.phase.at);
    }
    hide Explained;
    assert FilesOk(env, t);
    assert PhaseOk(env, t);
  }

  lemma ReadingKeeps(env: Env, s: State, a: Action, t: State)
    requires Inv(env, s) && Step(env, s, a) == Some(t)
    requires a.ReadMeta? || a.StatRaw? || a.Unreadable? || a.Answer200? || a.Answer304? || a.Fail?
    ensures Inv(env, t)
  {
  }

  /** A 304 is answered from a body between the version whose validators were sent and now. */
  lemma ReadRawKeeps(env: Env, s: State, now: int, t: State)
    requires Inv(env, s) && Step(env, s, ReadRaw(now)) == Some(t)
    ensures Inv(env, t)
    ensures exists k :: s.phase.metaVer <= k <= s.phase.at && t.phase.body == s.history[k].body
  {
    var p, f := s.phase, s.raw.now.value;
    assert GoodBody(s, s.raw.now);
    assert p.metaVer <= f.ver <= p.at && f.data == s.history[f.ver].body;
    assert Explained(env, s.history, f.data, p.at);
    assert FilesOk(env, t);
  }

  lemma StagingKeeps(env: Env, s: State, a: Action, t: State)
    requires Inv(env, s) && Step(env, s, a) == Some(t)
    requires a.OpenTmp? || a.WriteTmp? || a.SyncTmp?
    ensures Inv(env, t)
  {
  }

  lemma RenameKeeps(env: Env, s: State, t: State)
    requires env.Sound() && Inv(env, s) && Step(env, s, Rename) == Some(t)
    ensures Inv(env, t)
  {
    hide Explained;
    var p := s.phase;
    var f := Some(File(Payload(env, p), true, Version(p)));
    if p.SavingBody? {
      assert GoodBody(t, f);
      assert forall m :: m in t.meta.crash ==> InOrder(f, m);
    } else {
      assert env.unmarshal(f.value.data) == Some(p.meta);
      assert GoodMeta(env, t, f);
      assert forall r :: r in t.raw.crash ==> InOrder(r, f);
    }
    assert FilesOk(env, t);
  }

  lemma SettleKeepsFiles(env: Env, s: State, t: State)
    requires FilesOk(env, s) && t.history == s.history && t.stale == s.stale
    requires t.raw == Settle(s.raw) && t.meta == Settle(s.meta)
    ensures FilesOk(env, t)
  {
  }

  lemma SyncDirKeeps(env: Env, s: State, now: int, t: State)
    requires Inv(env, s) && Step(env, s, SyncDir(now)) == Some(t)
    ensures Inv(env, t)
  {
    SettleKeepsFiles(env, s, t);
    assert s.phase.SavingBody? ==> Explained(env, s.history, s.phase.res.body, s.phase.at);
    assert s.raw.now in s.raw.crash;
    hide FilesOk, Explained;
    assert PhaseOk(env, t);
  }

  lemma DeleteKeeps(env: Env, s: State, target: Target)
    requires Inv(env, s)
    ensures Inv(env, Step(env, s, Delete(target)).value)
  {
    hide Explained;
    var t := Step(env, s, Delete(target)).value;
    assert FilesOk(env, t);
  }

  lemma ReplaceDirKeeps(env: Env, s: State, t: State)
    requires Inv(env, s) && Step(env, s, ReplaceDir) == Some(t)
    ensures Inv(env, t)
  {
  }

  lemma PowerLossKeeps(env: Env, s: State, r: Option<File>, m: Option<File>, t: State)
    requires Inv(env, s) && Step(env, s, PowerLoss(r, m)) == Some(t)
    ensures Inv(env, t)
  {
    hide Explained;
    assert forall f, g :: Survives(f, g) && (f.Some? ==> f.value.synced) ==> f == g;
    assert GoodBody(t, r) && GoodMeta(env, t, m) && InOrder(r, m);
    assert FilesOk(env, t);
  }

  lemma StepKeeps(env: Env, s: State, a: Action, t: State)
    requires env.Sound() && Inv(env, s) && Step(env, s, a) == Some(t)
    ensures Inv(env, t)
  {
    hide Inv;
    match a
    case Publish(r) => PublishKeeps(env, s, r);
    case ReadRaw(now) => ReadRawKeeps(env, s, now, t);
    case OpenTmp => StagingKeeps(env, s, a, t);
    case WriteTmp(_) => StagingKeeps(env, s, a, t);
    case SyncTmp => StagingKeeps(env, s, a, t);
    case Rename => RenameKeeps(env, s, t);
    case SyncDir(now) => SyncDirKeeps(env, s, now, t);
    case Delete(target) => DeleteKeeps(env, s, target);
    case ReplaceDir => ReplaceDirKeeps(env, s, t);
    case PowerLoss(r, m) => PowerLossKeeps(env, s, r, m, t);
    case _ => ReadingKeeps(env, s, a, t);
  }

  lemma {:induction false} RunKeeps(env: Env, s: State, actions: seq<Action>, t: State)
    requires env.Sound() && Inv(env, s) && Run(env, s, actions) == Some(t)
    ensures Inv(env, t)
    decreases |actions|
  {
    hide Step, Inv;
    if actions != [] {
      var u := Step(env, s, actions[0]).value;
      StepKeeps(env, s, actions[0], u);
      RunKeeps(env, u, actions[1..], t);
    }
  }

  // ----- what holds over every run -----

  /** All files that a reader, now or after a crash, may find. */
  ghost predicate MayHold(s: State, raw: Option<File>, meta: Option<File>) {
    (raw == s.raw.now && meta == s.meta.now) || MayRemain(s, raw, meta)
  }

  /** After any run, whatever a reader may find, now or once power is lost, is a complete body the
      origin once served, and a sidecar with the validators, the hash and the length of some version,
      never newer than the body beside it. */
  lemma DurableStateIsConsistent(env: Env, actions: seq<Action>, s: State, raw: Option<File>, meta: Option<File>)
    requires env.Sound() && Run(env, INIT, actions) == Some(s) && MayHold(s, raw, meta)
    ensures raw.Some? ==> exists v :: 0 <= v < |s.history| && raw.value.data == s.history[v].body
    ensures meta.Some? ==>
              && env.unmarshal(meta.value.data).Some?
              && exists v :: 0 <= v < |s.history| && Describes(env, s, env.unmarshal(meta.value.data).value, v)
    ensures raw.Some? && meta.Some? ==>
              exists v, w :: 0 <= v <= w < |s.history| && raw.value.data == s.history[w].body
                          && Describes(env, s, env.unmarshal(meta.value.data).value, v)
  {
    assert Inv(env, INIT);
    RunKeeps(env, INIT, actions, s);
    hide Explained, Run;
    assert forall f, g :: Survives(f, g) && (f.Some? ==> f.value.synced) ==> f == g;
    assert GoodBody(s, raw) && GoodMeta(env, s, meta) && InOrder(raw, meta);
  }

  /** No version that may be taken for unmodified since an earlier one differs from any version between. */
  ghost predicate Unambiguous(env: Env, h: seq<Resource>) {
    forall i, k, j :: 0 <= i <= k <= j < |h| && env.notModified(RequestAfter(h[i]), h[j]) ==> h[k].body == h[j].body
  }

  ghost predicate Safe(s: State) {
    forall o <- s.done :: o.at < |s.history| && o.body == s.history[o.at].body
  }

  /** Every fetch that returns a body returns the one the origin held when it answered. */
  lemma FetchIsFresh(env: Env, actions: seq<Action>, s: State)
    requires env.Sound() && Run(env, INIT, actions) == Some(s) && Unambiguous(env, s.history)
    ensures Safe(s)
  {
    assert Inv(env, INIT);
    RunKeeps(env, INIT, actions, s);
    hide Run, FilesOk, PhaseOk;
    forall o | o in s.done
      ensures o.body == s.history[o.at].body
    {
      assert Explained(env, s.history, o.body, o.at);
    }
  }

  // ----- the condition is necessary -----

  lemma {:induction false} RunConcat(env: Env, s: State, a: seq<Action>, b: seq<Action>, t: State)
    requires Run(env, s, a) == Some(t)
    ensures Run(env, s, a + b) == Run(env, t, b)
    decreases |a|
  {
    hide Step;
    if a == [] {
      assert a + b == b;
    } else {
      assert (a + b)[1..] == a[1..] + b;
      RunConcat(env, Step(env, s, a[0]).value, a[1..], b, t);
    }
  }

  lemma RunOne(env: Env, s: State, a: Action)
    ensures Run(env, s, [a]) == Step(env, s, a)
  {
  }

  /** A run so far, from INIT. */
  ghost predicate Reaches(env: Env, actions: seq<Action>, s: State) { Run(env, INIT, actions) == Some(s) }

  lemma Then(env: Env, actions: seq<Action>, s: State, a: Action) returns (more: seq<Action>, t: State)
    requires Reaches(env, actions, s) && Step(env, s, a).Some?
    ensures Step(env, s, a) == Some(t) && Reaches(env, more, t)
  {
    hide Step;
    t := Step(env, s, a).value;
    more := actions + [a];
    RunConcat(env, INIT, actions, [a], s);
    RunOne(env, s, a);
  }

  /** Publish the next versions of h until it holds n of them. */
  lemma {:induction false} PublishTo(env: Env, actions: seq<Action>, s: State, h: seq<Resource>, n: nat)
    returns (more: seq<Action>, t: State)
    requires Reaches(env, actions, s) && |s.history| <= n <= |h| && s.history == h[..|s.history|]
    ensures Reaches(env, more, t) && t == s.(history := h[..n])
    decreases n - |s.history|
  {
    if |s.history| == n {
      more, t := actions, s;
    } else {
      var k := |s.history|;
      var b, u := Then(env, actions, s, Publish(h[k]));
      assert h[..k + 1] == h[..k] + [h[k]];
      more, t := PublishTo(env, b, u, h, n);
    }
  }

  lemma Fill(env: Env, actions: seq<Action>, s: State) returns (more: seq<Action>, t: State)
    requires Reaches(env, actions, s) && (s.phase.SavingBody? || s.phase.SavingMeta?) && s.phase.stage.Start?
    ensures Reaches(env, more, t) && t == s.(phase := At(s.phase, Synced))
  {
    hide Reaches, MayRemain;
    var data := Payload(env, s.phase);
    assert data[..|data|] == data;
    more, t := Then(env, actions, s, OpenTmp);
    more, t := Then(env, more, t, WriteTmp(|data|));
    more, t := Then(env, more, t, SyncTmp);
  }

  /** Write, sync, rename and sync the directory, without incident. */
  lemma Save(env: Env, actions: seq<Action>, s: State) returns (more: seq<Action>, t: State)
    requires Reaches(env, actions, s) && (s.phase.SavingBody? || s.phase.SavingMeta?) && s.phase.stage.Start?
    ensures Reaches(env, more, t) && t.history == s.history
    ensures var f := File(Payload(env, s.phase), true, Version(s.phase));
            match s.phase
            case SavingBody(res, at, _) =>
              && t.raw.now == Some(f) && t.meta.now == s.meta.now && t.done == s.done
              && t.phase == SavingMeta(res.body, at, MetaFor(env, res, 0), at, Start)
            case SavingMeta(body, at, _, _, _) =>
              && t.raw.now == s.raw.now && t.meta.now == Some(f)
              && t.phase.Idle? && t.done == s.done + [Outcome(body, at)]
  {
    more, t := Fill(env, actions, s);
    hide Reaches, MayRemain;
    more, t := Then(env, more, t, Rename);
    more, t := Then(env, more, t, SyncDir(0));
  }

  /** The origin answers 200 and the body reaches the disk. */
  lemma FetchBody(env: Env, actions: seq<Action>, s: State) returns (more: seq<Action>, t: State)
    requires Reaches(env, actions, s) && s.phase.Idle? && s.history != []
    ensures var at := |s.history| - 1; var res := s.history[at];
            && Reaches(env, more, t) && t.history == s.history && t.meta.now == s.meta.now
            && t.raw.now == Some(File(res.body, true, at))
            && t.phase == SavingMeta(res.body, at, MetaFor(env, res, 0), at, Start)
  {
    more, t := Then(env, actions, s, ReadMeta);
    more, t := Then(env, more, t, StatRaw);
    more, t := Then(env, more, t, Answer200);
    hide Step;
    more, t := Save(env, more, t);
  }

  /** The origin answers 304 to validators found on disk and the body found there is returned. */
  lemma FetchNotModified(env: Env, actions: seq<Action>, s: State, m: Meta) returns (more: seq<Action>, t: State)
    requires Reaches(env, actions, s) && s.phase.Idle? && s.history != []
    requires s.raw.now.Some? && s.meta.now.Some? && env.unmarshal(s.meta.now.value.data) == Some(m)
    requires env.notModified(Request(m.etag, m.lastMod), s.history[|s.history| - 1])
    ensures Reaches(env, more, t) && t.history == s.history
    ensures Outcome(s.raw.now.value.data, |s.history| - 1) in t.done
  {
    more, t := Then(env, actions, s, ReadMeta);
    more, t := Then(env, more, t, StatRaw);
    more, t := Then(env, more, t, Answer304);
    more, t := Then(env, more, t, ReadRaw(0));
    hide Step;
    more, t := Save(env, more, t);
  }

  lemma Fails(env: Env, actions: seq<Action>, s: State) returns (more: seq<Action>, t: State)
    requires Reaches(env, actions, s)
    ensures Reaches(env, more, t) && t == s.(phase := Idle)
  {
    more, t := Then(env, actions, s, Fail);
  }

  /** Fetch version i, fetch version k but stop before its sidecar is written, then meet version j,
      which the origin takes for unmodified since i: the fetch returns version k's body. */
  lemma WrongBodyRun(env: Env, h: seq<Resource>, i: nat, k: nat, j: nat) returns (actions: seq<Action>, s: State)
    requires env.Sound() && i <= k <= j < |h|
    requires env.notModified(RequestAfter(h[i]), h[j]) && h[k].body != h[j].body
    ensures Run(env, INIT, actions) == Some(s) && s.history == h && !Safe(s)
  {
    hide Step;
    assert Reaches(env, [], INIT);
    actions, s := PublishTo(env, [], INIT, h, i + 1);
    actions, s := FetchBody(env, actions, s);
    actions, s := Save(env, actions, s);
    var m := MetaFor(env, h[i], 0);
    assert env.unmarshal(s.meta.now.value.data) == Some(m);
    if k > i {
      actions, s := PublishTo(env, actions, s, h, k + 1);
      actions, s := FetchBody(env, actions, s);
      actions, s := Fails(env, actions, s);
    }
    actions, s := PublishTo(env, actions, s, h, j + 1);
    actions, s := FetchNotModified(env, actions, s, m);
    var o := Outcome(h[k].body, j);
    assert o in s.done;
    actions, s := PublishTo(env, actions, s, h, |h|);
    assert h[..|h|] == h;
    assert o in s.done && o.body != s.history[o.at].body;
  }

  /** Fetch returns the origin's current body on every run through the history h if and only if
      h is unambiguous for the origin's way of answering 304. */
  lemma FreshIffUnambiguous(env: Env, h: seq<Resource>)
    requires env.Sound()
    ensures (forall actions, s :: Run(env, INIT, actions) == Some(s) && s.history == h ==> Safe(s))
       <==> Unambiguous(env, h)
  {
    hide Run, Safe;
    if Unambiguous(env, h) {
      forall actions, s | Run(env, INIT, actions) == Some(s) && s.history == h
        ensures Safe(s)
      {
        FetchIsFresh(env, actions, s);
      }
    } else {
      var i, k, j :| 0 <= i <= k <= j < |h| && env.notModified(RequestAfter(h[i]), h[j]) && h[k].body != h[j].body;
      var actions, s := WrongBodyRun(env, h, i, k, j);
    }
  }

  // ----- which origins and histories that is -----

  /** An origin that follows RFC 9110, sections 13.1.2, 13.1.3 and 15.4.5: a 304 only when the entity
      tag sent matches the current one or, without a tag, the current date is not after the date sent.
      sameTag is the weak comparison of section 8.8.3.2 and notAfter the comparison of dates. */
  ghost predicate Standard(env: Env, sameTag: (string, string) -> bool, notAfter: (string, string) -> bool) {
    forall q: Request, r: Resource :: env.notModified(q, r) ==>
      if q.ifNoneMatch != "" then sameTag(q.ifNoneMatch, r.etag)
      else q.ifModifiedSince != "" && r.lastMod != "" && notAfter(r.lastMod, q.ifModifiedSince)
  }

  /** No tag matches that of a later version, and every version is, where dated, of a later date. */
  ghost predicate NeverReused(h: seq<Resource>, sameTag: (string, string) -> bool, notAfter: (string, string) -> bool) {
    forall i, j :: 0 <= i < j < |h| ==>
      && (h[i].etag != "" ==> !sameTag(h[i].etag, h[j].etag))
      && (h[i].lastMod != "" && h[j].lastMod != "" ==> !notAfter(h[j].lastMod, h[i].lastMod))
  }

  /** Whatever the two comparisons are. */
  lemma NeverReusedIsUnambiguous(env: Env, h: seq<Resource>, sameTag: (string, string) -> bool,
                                 notAfter: (string, string) -> bool)
    requires Standard(env, sameTag, notAfter) && NeverReused(h, sameTag, notAfter)
    ensures Unambiguous(env, h)
  {
  }

  /** A tag that names its content exactly is not enough: when the content goes from one version
      to another and back, some run returns the version in between. */
  lemma RevertIsAmbiguous(env: Env, a: Resource, b: Resource)
    requires env.Sound() && a.body != b.body && env.notModified(RequestAfter(a), a)
    ensures exists actions, s :: Run(env, INIT, actions) == Some(s) && s.history == [a, b, a] && !Safe(s)
  {
    hide Run, Safe;
    var h := [a, b, a];
    assert h[0] == a && h[1] == b && h[2] == a;
    var actions, s := WrongBodyRun(env, h, 0, 1, 2);
  }
}
