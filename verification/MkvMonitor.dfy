/** A monitor that reads the recorder's trace, knowing nothing of its state, and
    says which events may happen.  Every trace the recorder can write passes it. */
module MkvMonitor {
  import opened CLib
  import opened MkvFastPath
  import opened MkvRecorder
  import T = MkvTimestamps

  /** A file as the monitor sees it. */
  datatype Chunk = Chunk(id: nat, ready: bool, readyAt: int, stamped: seq<int>, skipped: bool, videoIn: bool,
                         failed: bool)

  datatype Caller = ByVideo(idr: bool, now: int) | ByAudio | ByShutdown | Nobody

  /** What has to come next: the trailer of a file that must end, then its
      release. */
  datatype Duty = NoDuty | MustTrail | MustFree

  datatype Monitor = Monitor(chunk: Option<Chunk>, used: set<nat>, caller: Caller, failedSinceIdr: bool, duty: Duty)

  const QUIET := Monitor(None, {}, Nobody, false, NoDuty)

  predicate IdrCall(m: Monitor) {
    m.caller.ByVideo? && m.caller.idr
  }

  predicate Current(m: Monitor, id: nat) {
    m.chunk.Some? && m.chunk.value.id == id
  }

  /** A file ends on a failed write, on shutdown, or on an IDR that is due. */
  predicate MayClose(m: Monitor, cfg: Config)
    requires m.chunk.Some?
  {
    || m.chunk.value.failed
    || m.caller.ByShutdown?
    || (IdrCall(m) && m.caller.now - m.chunk.value.readyAt >= cfg.chunkDuration)
  }

  /** An IDR that finds its file at least chunk_duration old. */
  predicate Due(m: Monitor, idr: bool, now: int, cfg: Config) {
    idr && m.chunk.Some? && m.chunk.value.ready && now - m.chunk.value.readyAt >= cfg.chunkDuration
  }

  /** Whether an event may happen; a duty comes before anything else. */
  predicate Allowed(m: Monitor, e: Event, cfg: Config) {
    (m.duty.MustTrail? ==> e.Trailer?) && (m.duty.MustFree? ==> e.Free?) &&
    match e
    case VideoCall(_, _) => true
    case AudioCall => true
    case Shutdown => true
    // one context at a time, each new, and only for an IDR
    case Alloc(id) => m.chunk.None? && id !in m.used && IdrCall(m)
    case Ready(id, _) => Current(m, id) && !m.chunk.value.ready
    case Skipped(id) => Current(m, id) && m.chunk.value.ready
    // no packet after a failed write before the next IDR; DTS from the encoder
    // timestamps of the file; first an IDR, unless a frame was given up
    case Video(id, key, ts, dts, _, _) =>
      && Current(m, id) && m.chunk.value.ready && !m.failedSinceIdr
      && m.caller.ByVideo? && key == m.caller.idr
      && dts == T.StampAll(m.chunk.value.stamped + [ts]).last
      && (m.chunk.value.stamped == [] && !m.chunk.value.skipped ==> key)
    // audio needs a video packet in the same file
    case Audio(id, _) =>
      && Current(m, id) && m.chunk.value.ready && !m.failedSinceIdr
      && m.caller.ByAudio? && m.chunk.value.videoIn
    case Trailer(id) => Current(m, id) && m.chunk.value.ready && m.duty.MustTrail? && MayClose(m, cfg)
    case Free(id) => Current(m, id) && (m.chunk.value.ready ==> m.duty.MustFree?)
  }

  function Observe(m: Monitor, e: Event, cfg: Config): Monitor
    requires e.Ready? || e.Skipped? || e.Video? || e.Audio? ==> m.chunk.Some?
  {
    match e
    case VideoCall(idr, now) =>
      m.(caller := ByVideo(idr, now), failedSinceIdr := m.failedSinceIdr && !idr,
         duty := if Due(m, idr, now, cfg) then MustTrail else m.duty)
    case AudioCall => m.(caller := ByAudio)
    case Shutdown => m.(caller := ByShutdown, duty := if m.chunk.Some? then MustTrail else m.duty)
    case Alloc(id) => m.(chunk := Some(Chunk(id, false, 0, [], false, false, false)), used := m.used + {id})
    case Ready(_, at) => m.(chunk := Some(m.chunk.value.(ready := true, readyAt := at)))
    case Skipped(_) => m.(chunk := Some(m.chunk.value.(skipped := true)))
    case Video(_, _, ts, _, _, ok) =>
      m.(chunk := Some(m.chunk.value.(stamped := m.chunk.value.stamped + [ts],
                                      videoIn := m.chunk.value.videoIn || ok,
                                      failed := m.chunk.value.failed || !ok)),
         failedSinceIdr := m.failedSinceIdr || !ok, duty := if ok then m.duty else MustTrail)
    case Audio(_, ok) =>
      m.(chunk := Some(m.chunk.value.(failed := m.chunk.value.failed || !ok)),
         failedSinceIdr := m.failedSinceIdr || !ok, duty := if ok then m.duty else MustTrail)
    case Trailer(_) => m.(duty := MustFree)
    case Free(_) => m.(chunk := None, duty := NoDuty)
  }

  /** The monitor after more events, None once something was not allowed. */
  function Follow(m: Monitor, t: Trace, cfg: Config): Option<Monitor> {
    if t == [] then Some(m)
    else
      match Follow(m, t[..|t| - 1], cfg)
      case None => None
      case Some(n) => if Allowed(n, t[|t| - 1], cfg) then Some(Observe(n, t[|t| - 1], cfg)) else None
  }

  function Watch(t: Trace, cfg: Config): Option<Monitor> {
    Follow(QUIET, t, cfg)
  }

  predicate Safe(t: Trace, cfg: Config) {
    Watch(t, cfg).Some?
  }

  lemma {:induction false} FollowConcat(m: Monitor, t: Trace, u: Trace, cfg: Config)
    requires Follow(m, t, cfg).Some?
    ensures Follow(m, t + u, cfg) == Follow(Follow(m, t, cfg).value, u, cfg)
  {
    hide Allowed, Observe;
    if u == [] {
      assert t + u == t;
    } else {
      var n := |u| - 1;
      FollowConcat(m, t, u[..n], cfg);
      assert (t + u)[..|t + u| - 1] == t + u[..n];
    }
  }

  lemma FollowOne(m: Monitor, e: Event, cfg: Config)
    requires Allowed(m, e, cfg)
    ensures Follow(m, [e], cfg) == Some(Observe(m, e, cfg))
  {
    hide Allowed, Observe;
    assert [e][..0] == [];
  }

  /** An allowed first event can be taken off a trace. */
  lemma FollowFirst(m: Monitor, e: Event, t: Trace, cfg: Config)
    requires Allowed(m, e, cfg)
    ensures Follow(m, [e] + t, cfg) == Follow(Observe(m, e, cfg), t, cfg)
  {
    hide Allowed, Observe, Follow;
    FollowOne(m, e, cfg);
    FollowConcat(m, [e], t, cfg);
  }

  lemma FollowTwo(m: Monitor, d: Event, e: Event, cfg: Config)
    requires Allowed(m, d, cfg) && Allowed(Observe(m, d, cfg), e, cfg)
    ensures Follow(m, [d, e], cfg) == Some(Observe(Observe(m, d, cfg), e, cfg))
  {
    hide Follow;
    FollowOne(Observe(m, d, cfg), e, cfg);
    FollowFirst(m, d, [e], cfg);
    assert [d, e] == [d] + [e];
  }

  // ---- every step of the recorder is allowed ----

  /** The file the recorder is writing, as the monitor sees it. */
  predicate InStep(s: State, c: Chunk) {
    && s.ctx == Some(c.id) && c.ready && c.readyAt == s.chunkStart && c.stamped == s.stamped && !c.failed
    && (c.videoIn <==> s.stamped != [])
  }

  predicate Numbered(s: State, m: Monitor) {
    && (s.ctx.None? <==> m.chunk.None?)
    && (s.ctx.None? ==> s.stamped == [])
    && (forall id :: id in m.used ==> id < s.nextId)
  }

  /** Holds between the calls, and inside a call before its frame is written. */
  predicate Agree(s: State, m: Monitor) {
    && Numbered(s, m) && m.duty.NoDuty?
    && (m.chunk.Some? ==> InStep(s, m.chunk.value) && !m.failedSinceIdr)
    && (m.chunk.Some? && s.stamped == [] ==> m.chunk.value.skipped)
  }

  /** Both accept the events and agree again. */
  predicate StepSafe(m: Monitor, o: Outcome, cfg: Config) {
    && Follow(m, o.events, cfg).Some?
    && Agree(o.next, Follow(m, o.events, cfg).value)
  }

  lemma CloseSafe(s: State, m: Monitor, cfg: Config)
    requires Numbered(s, m)
    requires m.chunk.Some? ==> s.ctx == Some(m.chunk.value.id) && m.chunk.value.ready && MayClose(m, cfg)
    requires if m.chunk.Some? then m.duty.MustTrail? else m.duty.NoDuty?
    ensures Follow(m, Close(s).events, cfg) == Some(m.(chunk := None, duty := NoDuty))
    ensures Agree(Close(s).next, m.(chunk := None, duty := NoDuty))
  {
    hide Follow;
    if s.ctx.Some? {
      FollowTwo(m, Trailer(s.ctx.value), Free(s.ctx.value), cfg);
    } else {
      FollowNothing(m, cfg);
    }
  }

  lemma FollowNothing(m: Monitor, cfg: Config)
    ensures Follow(m, [], cfg) == Some(m)
  {
  }

  lemma EnterSafe(s: State, m: Monitor, idr: bool, now: int, cfg: Config)
    requires Agree(s, m)
    ensures var o := EnterStep(s, idr, now, cfg);
            && StepSafe(m, o, cfg)
            && var n := Follow(m, o.events, cfg).value;
               n.caller == ByVideo(idr, now) && (idr ==> !n.failedSinceIdr)
  {
    hide Follow;
    var called := Observe(m, VideoCall(idr, now), cfg);
    if s.ctx.Some? && idr && now - s.chunkStart >= cfg.chunkDuration {
      CloseSafe(s, called, cfg);
      FollowFirst(m, VideoCall(idr, now), Close(s).events, cfg);
    } else {
      FollowOne(m, VideoCall(idr, now), cfg);
      assert EnterStep(s, idr, now, cfg).events == [VideoCall(idr, now)];
    }
  }

  lemma OpenSafe(s: State, m: Monitor, env: OpenEnv, cfg: Config)
    requires Agree(s, m) && s.ctx.None? && IdrCall(m) && !m.failedSinceIdr
    ensures var o := OpenStep(s, env, cfg);
            && Follow(m, o.events, cfg).Some?
            && var n := Follow(m, o.events, cfg).value;
               && Numbered(o.next, n) && n.caller == m.caller && !n.failedSinceIdr && n.duty.NoDuty?
               && (n.chunk.Some? ==> InStep(o.next, n.chunk.value))
  {
    hide Follow;
    var id := s.nextId;
    if env.diskFull || !env.allocOk {
      FollowNothing(m, cfg);
    } else if HeaderWritten(env, cfg) {
      FollowTwo(m, Alloc(id), Ready(id, env.now), cfg);
    } else {
      FollowTwo(m, Alloc(id), Free(id), cfg);
    }
  }

  lemma WriteSafe(s: State, m: Monitor, frame: Frame, idr: bool, reallocOk: bool, writeOk: bool, cfg: Config)
    requires Numbered(s, m) && m.chunk.Some? && InStep(s, m.chunk.value) && !m.failedSinceIdr && m.duty.NoDuty?
    requires m.caller.ByVideo? && m.caller.idr == idr
    requires s.stamped == [] && !m.chunk.value.skipped ==> idr
    ensures StepSafe(m, WriteStep(s, frame, idr, reallocOk, writeOk), cfg)
  {
    hide Follow, Size, Payload, T.StampAll;
    var id, o := s.ctx.value, WriteStep(s, frame, idr, reallocOk, writeOk);
    if Size(frame) == 0 || frame == [] || !BufferOk(s, frame, reallocOk) {
      FollowOne(m, Skipped(id), cfg);
    } else {
      var grown := if Size(frame) > s.bufSize then s.(bufSize := Size(frame) + Size(frame) / 2) else s;
      StampSafe(grown, m, frame[0].ts, idr, Payload(frame), writeOk, cfg);
    }
  }

  lemma StampSafe(s: State, m: Monitor, ts: int, idr: bool, data: seq<int>, writeOk: bool, cfg: Config)
    requires Numbered(s, m) && m.chunk.Some? && InStep(s, m.chunk.value) && !m.failedSinceIdr && m.duty.NoDuty?
    requires m.caller.ByVideo? && m.caller.idr == idr
    requires s.stamped == [] && !m.chunk.value.skipped ==> idr
    ensures StepSafe(m, StampStep(s, ts, idr, data, writeOk), cfg)
  {
    hide Follow, T.StampAll;
    var after := s.(stamped := s.stamped + [ts]);
    var packet := Video(s.ctx.value, idr, ts, T.StampAll(after.stamped).last, data, writeOk);
    FollowOne(m, packet, cfg);
    if !writeOk {
      CloseSafe(after, Observe(m, packet, cfg), cfg);
      FollowFirst(m, packet, Close(after).events, cfg);
    }
  }

  lemma DeliverSafe(s: State, m: Monitor, frame: Frame, idr: bool, env: OpenEnv, reallocOk: bool, writeOk: bool,
                    cfg: Config)
    requires Agree(s, m)
    requires m.caller.ByVideo? && m.caller.idr == idr && (idr ==> !m.failedSinceIdr)
    ensures StepSafe(m, DeliverStep(s, frame, idr, env, reallocOk, writeOk, cfg), cfg)
  {
    hide Follow, OpenStep, WriteStep, InStep;
    var begun := if s.ctx.None? && idr then OpenStep(s, env, cfg) else Outcome(s, [], 0);
    if s.ctx.None? && idr {
      OpenSafe(s, m, env, cfg);
    } else {
      FollowNothing(m, cfg);
    }
    if begun.next.ctx.Some? {
      var n := Follow(m, begun.events, cfg).value;
      WriteSafe(begun.next, n, frame, idr, reallocOk, writeOk, cfg);
      FollowConcat(m, begun.events, WriteStep(begun.next, frame, idr, reallocOk, writeOk).events, cfg);
    }
  }

  lemma VideoSafe(s: State, m: Monitor, frame: Frame, mallocs: seq<bool>, now: int, env: OpenEnv, reallocOk: bool,
                  writeOk: bool, cfg: Config)
    requires Agree(s, m) && |mallocs| == |frame|
    ensures StepSafe(m, VideoStep(s, frame, mallocs, now, env, reallocOk, writeOk, cfg), cfg)
  {
    hide Follow, Fast, EnterStep, DeliverStep;
    FollowNothing(m, cfg);
    var (cache, idr) := Fast(s.cache, frame, mallocs);
    var inspected := s.(cache := cache);
    if cfg.enabled && cache.gotExtradata {
      var entered := EnterStep(inspected, idr, now, cfg);
      EnterSafe(inspected, m, idr, now, cfg);
      var n := Follow(m, entered.events, cfg).value;
      DeliverSafe(entered.next, n, frame, idr, env, reallocOk, writeOk, cfg);
      FollowConcat(m, entered.events, DeliverStep(entered.next, frame, idr, env, reallocOk, writeOk, cfg).events, cfg);
    }
  }

  lemma AudioSafe(s: State, m: Monitor, len: int, writeOk: bool, cfg: Config)
    requires Agree(s, m)
    ensures StepSafe(m, AudioStep(s, len, writeOk, cfg), cfg)
  {
    hide Follow, T.StampAll;
    ClearClock();
    FollowNothing(m, cfg);
    var called := Observe(m, AudioCall, cfg);
    FollowOne(m, AudioCall, cfg);
    if s.ctx.Some? && T.StampAll(s.stamped).first >= 0 {
      var packet := Audio(s.ctx.value, writeOk);
      FollowTwo(m, AudioCall, packet, cfg);
      if !writeOk {
        CloseSafe(s, Observe(called, packet, cfg), cfg);
        FollowConcat(m, [AudioCall, packet], Close(s).events, cfg);
      }
    }
  }

  lemma StopSafe(s: State, m: Monitor, cfg: Config)
    requires Agree(s, m)
    ensures StepSafe(m, StopStep(s), cfg)
    ensures var n := Follow(m, StopStep(s).events, cfg).value; n.chunk.None? && n.duty.NoDuty?
  {
    hide Follow;
    var stopping := Observe(m, Shutdown, cfg);
    CloseSafe(s, stopping, cfg);
    FollowFirst(m, Shutdown, Close(s).events, cfg);
  }

  lemma {:induction false} RunSafe(cfg: Config, ops: seq<Op>)
    requires AllWellFormed(ops)
    ensures Safe(Run(cfg, ops).trace, cfg)
    ensures Agree(Run(cfg, ops).state, Watch(Run(cfg, ops).trace, cfg).value)
  {
    hide Follow, VideoStep, AudioStep, Agree;
    if ops == [] {
      FollowNothing(QUIET, cfg);
      StartAgrees();
    } else {
      var before, op := Run(cfg, ops[..|ops| - 1]), ops[|ops| - 1];
      RunSafe(cfg, ops[..|ops| - 1]);
      var m := Watch(before.trace, cfg).value;
      match op {
        case VideoOp(frame, mallocs, now, env, reallocOk, writeOk) =>
          VideoSafe(before.state, m, frame, mallocs, now, env, reallocOk, writeOk, cfg);
        case AudioOp(len, writeOk) => AudioSafe(before.state, m, len, writeOk, cfg);
      }
      FollowConcat(QUIET, before.trace, Apply(before.state, op, cfg).events, cfg);
    }
  }

  lemma StartAgrees()
    ensures Agree(INITIAL, QUIET)
  {
  }

  /** Whatever the interleaving of video and audio calls and the answers they
      get, the trace of the session is safe and leaves no file open. */
  lemma SessionSafe(cfg: Config, ops: seq<Op>)
    requires AllWellFormed(ops)
    ensures Safe(TraceOf(cfg, ops), cfg)
    ensures var end := Watch(TraceOf(cfg, ops), cfg).value; end.chunk.None? && end.duty.NoDuty?
  {
    hide Follow, Run, StopStep, Agree;
    RunSafe(cfg, ops);
    var h := Run(cfg, ops);
    StopSafe(h.state, Watch(h.trace, cfg).value, cfg);
    FollowConcat(QUIET, h.trace, StopStep(h.state).events, cfg);
  }
}
