/** fetchOnce and AtomicWrite as they run when nobody interferes: statement by statement, with
    every call allowed to fail. Each statement is one step of the protocol, so every execution
    is one of its runs. */
module FetchOnce {
  import opened Wrappers
  import opened FetchProtocol

  /** The calls that may return an error. */
  datatype Call =
    | ReadSidecar
    | StatBody
    | DoRequest
    | ReadResponse
    | ReadCached
    | OpenFile(t: Target)
    | WriteFile(t: Target)
    | SyncFile(t: Target)
    | CloseFile(t: Target)
    | RenameFile(t: Target)
    | SyncParent(t: Target)

  datatype Status = OK200 | NotModified304 | Other

  function Writes(t: Target): set<Call> {
    {OpenFile(t), WriteFile(t), SyncFile(t), CloseFile(t), RenameFile(t), SyncParent(t)}
  }

  class Store {
    const env: Env
    var s: State
    ghost var steps: seq<Action>

    constructor (env: Env, s: State)
      ensures this.env == env && this.s == s && steps == []
    {
      this.env, this.s, steps := env, s, [];
    }

    /** steps leads from state from to the present state. */
    ghost predicate Trace(from: State)
      reads this
    {
      Run(env, from, steps) == Some(s)
    }

    /** Perform one step. */
    method Act(a: Action, ghost from: State)
      requires Trace(from) && Step(env, s, a).Some?
      modifies this
      ensures Some(s) == old(Step(env, s, a)) && Trace(from)
    {
      hide Step, Run;
      RunConcat(env, from, steps, [a], s);
      RunOne(env, s, a);
      var next := Step(env, s, a).value;
      s, steps := next, steps + [a];
    }

    /** The tmp file: open, write, fsync, close. */
    method FillTmp(t: Target, data: Bytes, fails: Call -> bool, ghost from: State) returns (ok: bool)
      requires Trace(from) && (s.phase.SavingBody? || s.phase.SavingMeta?)
      requires s.phase.stage.Start? && data == Payload(env, s.phase)
      modifies this
      ensures Trace(from)
      ensures s == old(s).(phase := if ok then At(old(s.phase), Synced) else Idle)
      ensures ok <==> !fails(OpenFile(t)) && !fails(WriteFile(t)) && !fails(SyncFile(t)) && !fails(CloseFile(t))
    {
      hide Run, Trace, MayRemain;
      if fails(OpenFile(t)) {
        Act(Fail, from);
        return false;
      }
      Act(OpenTmp, from);
      if fails(WriteFile(t)) {
        Act(Fail, from);
        return false;
      }
      assert data[..|data|] == data;
      Act(WriteTmp(|data|), from);
      if fails(SyncFile(t)) {
        Act(Fail, from);
        return false;
      }
      Act(SyncTmp, from);
      if fails(CloseFile(t)) {
        Act(Fail, from);
        return false;
      }
      return true;
    }

    /** tmp file, write, fsync, close, rename, fsync of the directory. On an error the tmp file is
        removed unless it was already renamed, and the fetch is over. */
    method AtomicWrite(t: Target, data: Bytes, fails: Call -> bool, now: int, ghost from: State) returns (ok: bool)
      requires Trace(from)
      requires if t.Raw? then s.phase.SavingBody? else s.phase.SavingMeta?
      requires s.phase.stage.Start? && data == Payload(env, s.phase)
      modifies this
      ensures Trace(from) && s.history == old(s.history)
      ensures !ok ==> s.phase.Idle? && s.done == old(s.done)
      ensures ok <==> forall c :: c in Writes(t) ==> !fails(c)
      ensures ok && t.Raw? ==>
                && s.raw == Settle(Put(old(s.raw), Some(File(data, true, Version(old(s.phase))))))
                && s.meta == Settle(old(s.meta)) && s.done == old(s.done)
                && s.phase == SavingMeta(data, old(s.phase.at), MetaFor(env, old(s.phase.res), now),
                                         old(s.phase.at), Start)
      ensures ok && t.Sidecar? ==>
                && s.meta == Settle(Put(old(s.meta), Some(File(data, true, Version(old(s.phase))))))
                && s.raw == Settle(old(s.raw)) && s.phase.Idle?
                && s.done == old(s.done) + [Outcome(old(s.phase.body), old(s.phase.at))]
      ensures !ok && t.Sidecar? ==> s.raw == old(s.raw)
      ensures !ok ==> (if t.Raw? then s.meta == old(s.meta) else true)
    {
      hide Run, Trace, MayRemain;
      ok := FillTmp(t, data, fails, from);
      if !ok {
        return;
      }
      if fails(RenameFile(t)) {
        Act(Fail, from);
        return false;
      }
      Act(Rename, from);
      if fails(SyncParent(t)) {
        Act(Fail, from);
        return false;
      }
      Act(SyncDir(now), from);
      return true;
    }

    /** What readMetaOk finds: the sidecar if it can be read and decoded and the body is there too. */
    function Usable(fails: Call -> bool): Option<Meta>
      reads this
    {
      if fails(ReadSidecar) || fails(StatBody) || s.raw.now.None? || s.meta.now.None? then None
      else env.unmarshal(s.meta.now.value.data)
    }

    method ReadMetaOk(fails: Call -> bool, ghost from: State) returns (prev: Option<Meta>)
      requires Trace(from) && s.phase.Idle?
      modifies this
      ensures Trace(from) && s.(phase := Idle) == old(s) && s.phase.Ready?
      ensures prev == match s.phase.found case None => None case Some((m, _)) => Some(m)
      ensures prev == old(Usable(fails))
      ensures prev.Some? <==>
                && !fails(ReadSidecar) && !fails(StatBody) && old(s.raw.now).Some? && old(s.meta.now).Some?
                && env.unmarshal(old(s.meta.now).value.data).Some?
      ensures prev.Some? ==> env.unmarshal(old(s.meta.now).value.data) == prev
    {
      Act(if fails(ReadSidecar) then Unreadable else ReadMeta, from);
      Act(if fails(StatBody) then Unreadable else StatRaw, from);
      prev := match s.phase.found case None => None case Some((m, _)) => Some(m);
    }

    /** Whether the calls that a 200, and a 304, make after the validators were read all succeed. */
    ghost predicate Delivered(status: Status, fails: Call -> bool) {
      && !fails(DoRequest) && (forall c :: c in Writes(Sidecar) ==> !fails(c))
      && match status
         case OK200 => !fails(ReadResponse) && forall c :: c in Writes(Raw) ==> !fails(c)
         case NotModified304 => !fails(ReadCached)
         case Other => false
    }

    /** 304 to the validators in prev: the body on disk, and the sidecar with a new time. */
    method NotModified(prev: Meta, fails: Call -> bool, now: int, ghost from: State)
      returns (body: Result<Bytes, string>)
      requires Trace(from) && s.phase.Ready? && s.phase.found.Some? && s.phase.found.value.0 == prev
      requires s.history != [] && s.raw.now.Some?
      requires env.notModified(Request(prev.etag, prev.lastMod), s.history[|s.history| - 1])
      modifies this
      ensures Trace(from) && s.phase.Idle? && s.history == old(s.history)
      ensures body.Success? <==> !fails(ReadCached) && forall c :: c in Writes(Sidecar) ==> !fails(c)
      ensures body.Failure? ==> s.done == old(s.done)
      ensures body.Success? ==>
                && body.value == old(s.raw.now).value.data && s.raw == Settle(old(s.raw))
                && s.meta.crash == {s.meta.now} && s.meta.now.Some?
                && s.meta.now.value.data == env.marshal(prev.(fetchedAt := now))
                && s.done == old(s.done) + [Outcome(body.value, |s.history| - 1)]
    {
      hide Run, Trace, MayRemain;
      Act(Answer304, from);
      if fails(ReadCached) || s.raw.now.None? {
        Act(Fail, from);
        return Failure("cache: 304 but cache missing");
      }
      Act(ReadRaw(now), from);
      var cached := s.phase.body;
      var ok := AtomicWrite(Sidecar, env.marshal(s.phase.meta), fails, now, from);
      if !ok {
        return Failure("cache: write meta");
      }
      return Success(cached);
    }

    /** 200: the body, then the sidecar with its validators, hash, time and length. */
    method Received(fails: Call -> bool, now: int, ghost from: State) returns (body: Result<Bytes, string>)
      requires Trace(from) && s.phase.Ready? && s.history != []
      modifies this
      ensures Trace(from) && s.phase.Idle? && s.history == old(s.history)
      ensures body.Success? <==>
                !fails(ReadResponse) && (forall c :: c in Writes(Raw) ==> !fails(c))
                && forall c :: c in Writes(Sidecar) ==> !fails(c)
      ensures body.Failure? ==> s.done == old(s.done)
      ensures body.Success? ==>
                var res := s.history[|s.history| - 1];
                && body.value == res.body && s.raw.now.Some? && s.raw.now.value.data == res.body
                && s.raw.crash == {s.raw.now} && s.meta.crash == {s.meta.now} && s.meta.now.Some?
                && s.meta.now.value.data
                   == env.marshal(Meta(res.etag, res.lastMod, env.sha256(res.body), now, |res.body|))
                && s.done == old(s.done) + [Outcome(body.value, |s.history| - 1)]
    {
      hide Run, Trace, MayRemain;
      if fails(ReadResponse) {
        Act(Fail, from);
        return Failure("cache: read body");
      }
      Act(Answer200, from);
      var data := s.phase.res.body;
      var ok := AtomicWrite(Raw, data, fails, now, from);
      if !ok {
        return Failure("cache: write body");
      }
      ok := AtomicWrite(Sidecar, env.marshal(s.phase.meta), fails, now, from);
      if !ok {
        return Failure("cache: write meta");
      }
      return Success(data);
    }

    /** One fetch. The origin answers with status, 304 only where it may; res is its current version. */
    method FetchOnce(status: Status, fails: Call -> bool, now: int, ghost from: State)
      returns (body: Result<Bytes, string>)
      requires s.phase.Idle? && s.history != []
      requires Trace(from)
      requires status.NotModified304? ==>
                 var prev, current := Usable(fails), s.history[|s.history| - 1];
                 prev.Some? ==> env.notModified(Request(prev.value.etag, prev.value.lastMod), current)
      modifies this
      ensures Trace(from) && s.phase.Idle? && s.history == old(s.history)
      ensures body.Success? ==> s.done == old(s.done) + [Outcome(body.value, |s.history| - 1)]
      ensures body.Failure? ==> s.done == old(s.done)
      ensures body.Success? ==>
                && s.raw.now.Some? && s.raw.now.value.data == body.value && s.raw.crash == {s.raw.now}
                && s.meta.now.Some? && s.meta.crash == {s.meta.now}
      ensures body.Success? <==> Delivered(status, fails) && (status.NotModified304? ==> old(Usable(fails)).Some?)
      ensures body.Success? && status.OK200? ==>
                var res := s.history[|s.history| - 1];
                && body.value == res.body
                && s.meta.now.value.data
                   == env.marshal(Meta(res.etag, res.lastMod, env.sha256(res.body), now, |res.body|))
      ensures body.Success? && status.NotModified304? ==>
                && body.value == old(s.raw.now).value.data
                && s.meta.now.value.data == env.marshal(old(Usable(fails)).value.(fetchedAt := now))
      ensures env.Sound() && body.Success? ==>
                var meta := env.unmarshal(s.meta.now.value.data);
                && meta.Some? && meta.value.fetchedAt == now
                && match status
                   case OK200 =>
                     var res := s.history[|s.history| - 1];
                     && meta.value.etag == res.etag && meta.value.lastMod == res.lastMod
                     && meta.value.sha256 == env.sha256(res.body) && meta.value.bytes == |res.body|
                   case NotModified304 =>
                     var prev := old(Usable(fails));
                     && prev.Some? && meta.value.etag == prev.value.etag && meta.value.lastMod == prev.value.lastMod
                     && meta.value.sha256 == prev.value.sha256 && meta.value.bytes == prev.value.bytes
                   case Other => true
    {
      hide Run, Trace, MayRemain;
      var prev := ReadMetaOk(fails, from);
      if fails(DoRequest) {
        Act(Fail, from);
        return Failure("cache: do");
      }
      if status.NotModified304? && prev.Some? {
        body := NotModified(prev.value, fails, now, from);
      } else if status.OK200? {
        body := Received(fails, now, from);
      } else {
        Act(Fail, from);
        return Failure("cache: status");
      }
    }
  }
}
