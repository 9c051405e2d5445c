/** The recorder: video and audio calls that share one muxer context
    (mkv_recorder.c).  FFmpeg calls answer as the caller of a method says; what
    the recorder does to the muxer is written to a trace.  Each method is proved
    against a step function on recorder states. */
module MkvRecorder {
  import opened CLib
  import opened MkvFastPath
  import T = MkvTimestamps

  datatype Config = Config(enabled: bool, audioEnabled: bool, chunkDuration: int)

  datatype Event =
    | VideoCall(idr: bool, now: int)    // a video call enters the critical section
    | AudioCall
    | Shutdown
    | Alloc(id: nat)                    // a muxer context comes to life
    | Ready(id: nat, at: int)           // its header is written
    | Skipped(id: nat)                  // a frame is given up before it is stamped
    | Video(id: nat, key: bool, ts: int, dts: int, data: seq<int>, ok: bool)   // ts as the encoder gave it
    | Audio(id: nat, ok: bool)
    | Trailer(id: nat)
    | Free(id: nat)

  type Trace = seq<Event>

  /** What FFmpeg and the system answer while a chunk is opened. */
  datatype OpenEnv = OpenEnv(diskFull: bool, allocOk: bool, videoStreamOk: bool, audioStreamOk: bool,
                             avioOk: bool, headerOk: bool, now: int)

  // ---- the steps ----

  /** The recorder between two calls: `stamped` lists the encoder timestamps of
      the frames written to the open chunk. */
  datatype State = State(cache: Cache, ctx: Option<nat>, nextId: nat, chunkStart: int, stamped: seq<int>,
                         bufSize: nat)

  const INITIAL := State(EMPTY, None, 0, 0, [], 0)

  datatype Outcome = Outcome(next: State, events: Trace, result: int)

  function Closing(id: nat): Trace {
    [Trailer(id), Free(id)]
  }

  function Close(s: State): Outcome {
    match s.ctx
    case None => Outcome(s, [], 0)
    case Some(id) => Outcome(s.(ctx := None, stamped := []), Closing(id), 0)
  }

  predicate HeaderWritten(env: OpenEnv, cfg: Config) {
    env.videoStreamOk && (cfg.audioEnabled ==> env.audioStreamOk) && env.avioOk && env.headerOk
  }

  function OpenStep(s: State, env: OpenEnv, cfg: Config): Outcome {
    var id, idle := s.nextId, s.(ctx := None, stamped := []);
    if env.diskFull || !env.allocOk then Outcome(idle, [], -1)
    else if !HeaderWritten(env, cfg) then Outcome(idle.(nextId := id + 1), [Alloc(id), Free(id)], -1)
    else
      Outcome(idle.(ctx := Some(id), nextId := id + 1, chunkStart := env.now), [Alloc(id), Ready(id, env.now)], 0)
  }

  /** The bytes of a frame: those of its packs, one behind the other. */
  function Payload(frame: Frame): seq<int> {
    if frame == [] then [] else Payload(frame[..|frame| - 1]) + frame[|frame| - 1].data
  }

  function Size(frame: Frame): nat {
    |Payload(frame)|
  }

  predicate BufferOk(s: State, frame: Frame, reallocOk: bool) {
    Size(frame) <= s.bufSize || reallocOk
  }

  /** mkv_recorder.c:403-434. */
  function StampStep(s: State, ts: int, idr: bool, data: seq<int>, writeOk: bool): Outcome
    requires s.ctx.Some?
  {
    var after := s.(stamped := s.stamped + [ts]);
    var packet := Video(s.ctx.value, idr, ts, T.StampAll(after.stamped).last, data, writeOk);
    if writeOk then Outcome(after, [packet], 0) else Outcome(Close(after).next, [packet] + Close(after).events, -1)
  }

  /** mkv_recorder.c:360-435: a frame for which a chunk is open. */
  function WriteStep(s: State, frame: Frame, idr: bool, reallocOk: bool, writeOk: bool): Outcome
    requires s.ctx.Some?
  {
    var size := Size(frame);
    if size == 0 || frame == [] then Outcome(s, [Skipped(s.ctx.value)], 0)
    else if !BufferOk(s, frame, reallocOk) then Outcome(s, [Skipped(s.ctx.value)], -1)
    else
      var grown := if size > s.bufSize then s.(bufSize := size + size / 2) else s;
      StampStep(grown, frame[0].ts, idr, Payload(frame), writeOk)
  }

  /** mkv_recorder.c:335-343: ends a chunk that is due. */
  function EnterStep(s: State, idr: bool, now: int, cfg: Config): Outcome {
    var closed := if idr && now - s.chunkStart >= cfg.chunkDuration then Close(s) else Outcome(s, [], 0);
    Outcome(closed.next, [VideoCall(idr, now)] + closed.events, 0)
  }

  /** mkv_recorder.c:345-435: opens a chunk if an IDR asks for one, then writes. */
  function DeliverStep(s: State, frame: Frame, idr: bool, env: OpenEnv, reallocOk: bool, writeOk: bool,
                       cfg: Config): Outcome
  {
    var begun := if s.ctx.None? && idr then OpenStep(s, env, cfg) else Outcome(s, [], 0);
    if begun.next.ctx.None? then Outcome(begun.next, begun.events, 0)
    else
      var written := WriteStep(begun.next, frame, idr, reallocOk, writeOk);
      Outcome(written.next, begun.events + written.events, written.result)
  }

  /** mkv_recorder_write_frame (mkv_recorder.c:313-436). */
  function VideoStep(s: State, frame: Frame, mallocs: seq<bool>, now: int, env: OpenEnv, reallocOk: bool,
                     writeOk: bool, cfg: Config): Outcome
    requires |mallocs| == |frame|
  {
    if !cfg.enabled then Outcome(s, [], 0)
    else
      var (cache, idr) := Fast(s.cache, frame, mallocs);
      var inspected := s.(cache := cache);
      if !cache.gotExtradata then Outcome(inspected, [], 0)
      else
        var entered := EnterStep(inspected, idr, now, cfg);
        var delivered := DeliverStep(entered.next, frame, idr, env, reallocOk, writeOk, cfg);
        Outcome(delivered.next, entered.events + delivered.events, delivered.result)
  }

  /** mkv_recorder_write_audio_frame (mkv_recorder.c:438-495). */
  function AudioStep(s: State, len: int, writeOk: bool, cfg: Config): Outcome {
    if !cfg.enabled || !cfg.audioEnabled || len <= 0 then Outcome(s, [], 0)
    else if s.ctx.None? || T.StampAll(s.stamped).first < 0 then Outcome(s, [AudioCall], 0)
    else if writeOk then Outcome(s, [AudioCall, Audio(s.ctx.value, true)], 0)
    else Outcome(Close(s).next, [AudioCall, Audio(s.ctx.value, false)] + Close(s).events, -1)
  }

  /** mkv_recorder_shutdown. */
  function StopStep(s: State): Outcome {
    Outcome(Close(s).next.(cache := EMPTY, bufSize := 0), [Shutdown] + Close(s).events, 0)
  }

  // ---- the recorder ----

  class Recorder {
    const cfg: Config
    const inspector: Inspector
    var fmtCtx: Option<nat>
    var videoStream: Option<nat>   // the context that owns the stream pointer
    var audioStream: Option<nat>
    var chunkStart: int
    var frameCount: nat
    var firstPts: int
    var lastRelative: int
    var frameBuf: seq<int>
    var nextId: nat
    ghost var stamped: seq<int>
    ghost var trace: Trace

    ghost function Abs(): State
      reads this, inspector
    {
      State(inspector.Abs(), fmtCtx, nextId, chunkStart, stamped, |frameBuf|)
    }

    /** The clock fields are those of the frames written to the open chunk, and
        the stream pointers belong to it. */
    ghost predicate Valid()
      reads this
    {
      && T.Clock(firstPts, lastRelative) == T.StampAll(stamped)
      && (fmtCtx.None? ==> stamped == [])
      && (fmtCtx.Some? ==>
            videoStream == fmtCtx && (cfg.audioEnabled ==> audioStream == fmtCtx) && frameCount == |stamped|)
    }

    constructor (cfg: Config)
      ensures Valid() && this.cfg == cfg && Abs() == INITIAL && trace == [] && fresh(inspector)
    {
      this.cfg := cfg;
      inspector := new Inspector();
      fmtCtx, videoStream, audioStream := None, None, None;
      chunkStart, frameCount, firstPts, lastRelative, frameBuf, nextId := 0, 0, -1, -1, [], 0;
      stamped, trace := [], [];
    }

    /** open_new_chunk: on success the chunk is ready and empty, on failure no
        context is left behind. */
    method OpenChunk(env: OpenEnv) returns (result: int)
      requires Valid() && fmtCtx.None?
      modifies this
      ensures Valid()
      ensures Outcome(Abs(), trace, result)
           == var o := OpenStep(old(Abs()), env, cfg); o.(events := old(trace) + o.events)
      ensures result == 0 <==> fmtCtx.Some?
    {
      hide T.StampAll;
      ClearClock();
      firstPts, lastRelative, frameCount, stamped := -1, -1, 0, [];
      if env.diskFull || !env.allocOk {
        return -1;
      }
      fmtCtx, nextId := Some(nextId), nextId + 1;
      trace := trace + [Alloc(fmtCtx.value)];
      result := StartFile(env);
    }

    /** mkv_recorder.c:108-220: from a new context to a file with its header, or
        to no context. */
    method StartFile(env: OpenEnv) returns (result: int)
      requires fmtCtx.Some? && frameCount == |stamped|
      requires T.Clock(firstPts, lastRelative) == T.StampAll(stamped) && stamped == []
      modifies this`fmtCtx, this`videoStream, this`audioStream, this`chunkStart, this`trace
      ensures Valid()
      ensures result == if HeaderWritten(env, cfg) then 0 else -1
      ensures fmtCtx == if result == 0 then old(fmtCtx) else None
      ensures chunkStart == if result == 0 then env.now else old(chunkStart)
      ensures var id := old(fmtCtx).value;
              trace == old(trace) + [if result == 0 then Ready(id, env.now) else Free(id)]
    {
      hide T.StampAll;
      var streams := AddStreams(env);
      if !streams || !env.avioOk || !env.headerOk {
        trace := trace + [Free(fmtCtx.value)];
        fmtCtx := None;
        return -1;
      }
      trace := trace + [Ready(fmtCtx.value, env.now)];
      chunkStart := env.now;
      return 0;
    }

    /** avformat_new_stream for video and, when enabled, for audio. */
    method AddStreams(env: OpenEnv) returns (ok: bool)
      requires fmtCtx.Some?
      modifies this`videoStream, this`audioStream
      ensures ok == (env.videoStreamOk && (cfg.audioEnabled ==> env.audioStreamOk))
      ensures ok ==> videoStream == fmtCtx && (cfg.audioEnabled ==> audioStream == fmtCtx)
    {
      videoStream := if env.videoStreamOk then fmtCtx else None;
      if videoStream.None? {
        return false;
      }
      if cfg.audioEnabled {
        audioStream := if env.audioStreamOk then fmtCtx else None;
        if audioStream.None? {
          videoStream := None;
          return false;
        }
      }
      return true;
    }

    /** close_current_chunk; the chunk need not be in step with its clock, as a
        failed write leaves it. */
    method CloseChunk()
      requires fmtCtx.None? ==> Valid()
      modifies this
      ensures Valid() && fmtCtx.None?
      ensures Abs() == Close(old(Abs())).next
      ensures trace == old(trace) + Close(old(Abs())).events
    {
      hide T.StampAll;
      ClearClock();
      if fmtCtx.None? {
        return;
      }
      trace := trace + Closing(fmtCtx.value);
      fmtCtx, videoStream, audioStream := None, None, None;
      firstPts, lastRelative, stamped := -1, -1, [];
    }

    /** mkv_recorder_write_frame.  `now` is the clock at the rotation test. */
    method WriteFrame(frame: Frame, mallocs: seq<bool>, now: int, env: OpenEnv, reallocOk: bool, writeOk: bool)
      returns (result: int)
      requires Valid() && |mallocs| == |frame|
      modifies this, inspector
      ensures Valid()
      ensures Outcome(Abs(), trace, result)
           == var o := VideoStep(old(Abs()), frame, mallocs, now, env, reallocOk, writeOk, cfg);
              o.(events := old(trace) + o.events)
    {
      hide Valid, Fast, EnterStep, DeliverStep;
      if !cfg.enabled {
        return 0;
      }
      var idr := Detect(frame, mallocs);
      if !inspector.gotExtradata {
        return 0;
      }
      Enter(idr, now);
      result := Deliver(frame, idr, env, reallocOk, writeOk);
    }

    method Detect(frame: Frame, mallocs: seq<bool>) returns (idr: bool)
      requires Valid() && |mallocs| == |frame|
      modifies inspector
      ensures Valid()
      ensures var (cache, found) := Fast(old(inspector.Abs()), frame, mallocs);
              Abs() == old(Abs()).(cache := cache) && idr == found
    {
      hide Fast;
      idr := inspector.Detect(frame, mallocs);
    }

    method Enter(idr: bool, now: int)
      requires Valid()
      modifies this
      ensures Valid()
      ensures Abs() == EnterStep(old(Abs()), idr, now, cfg).next
      ensures trace == old(trace) + EnterStep(old(Abs()), idr, now, cfg).events
    {
      hide T.StampAll;
      trace := trace + [VideoCall(idr, now)];
      if fmtCtx.Some? && idr && now - chunkStart >= cfg.chunkDuration {
        CloseChunk();
      }
    }

    method Deliver(frame: Frame, idr: bool, env: OpenEnv, reallocOk: bool, writeOk: bool) returns (result: int)
      requires Valid()
      modifies this
      ensures Valid()
      ensures Outcome(Abs(), trace, result)
           == var o := DeliverStep(old(Abs()), frame, idr, env, reallocOk, writeOk, cfg);
              o.(events := old(trace) + o.events)
    {
      hide Valid, OpenStep, WriteStep;
      if fmtCtx.None? && idr {
        var ret := OpenChunk(env);
        if ret < 0 {
          return 0;
        }
      }
      if fmtCtx.None? {
        return 0;
      }
      result := WritePacket(frame, idr, reallocOk, writeOk);
    }

    method FrameSize(frame: Frame) returns (total: nat)
      ensures total == Size(frame)
    {
      total := 0;
      for i := 0 to |frame|
        invariant total == Size(frame[..i])
      {
        total := total + |frame[i].data|;
        assert frame[..i + 1][..i] == frame[..i];
      }
      assert frame[..|frame|] == frame;
    }

    /** Copies the packs into the buffer, over what earlier frames left there. */
    method Assemble(frame: Frame)
      requires Size(frame) <= |frameBuf|
      modifies this`frameBuf
      ensures |frameBuf| == old(|frameBuf|) && frameBuf[..Size(frame)] == Payload(frame)
    {
      hide Payload, Size;
      SizeOfNothing();
      var offset := 0;
      for i := 0 to |frame|
        invariant offset == Size(frame[..i]) <= |frameBuf| == old(|frameBuf|)
        invariant frameBuf[..offset] == Payload(frame[..i])
      {
        PackPlaced(frame, i);
        var data := frame[i].data;
        frameBuf := frameBuf[..offset] + data + frameBuf[offset + |data|..];
        offset := offset + |data|;
        assert frameBuf[..offset] == Payload(frame[..i]) + data;
      }
      assert frame[..|frame|] == frame;
    }

    /** Assembles the frame, stamps it and hands it to the muxer. */
    method WritePacket(frame: Frame, idr: bool, reallocOk: bool, writeOk: bool) returns (result: int)
      requires Valid() && fmtCtx.Some?
      modifies this
      ensures Valid()
      ensures Outcome(Abs(), trace, result)
           == var o := WriteStep(old(Abs()), frame, idr, reallocOk, writeOk); o.(events := old(trace) + o.events)
    {
      hide T.StampAll, StampStep, Size, Payload;
      SizeOfNothing();
      var total := FrameSize(frame);
      if total <= 0 {
        trace := trace + [Skipped(fmtCtx.value)];
        return 0;
      }
      if total > |frameBuf| {
        if !reallocOk {
          trace := trace + [Skipped(fmtCtx.value)];
          return -1;
        }
        frameBuf := frameBuf + seq(total + total / 2 - |frameBuf|, i => 0);
      }
      Assemble(frame);
      result := WriteStamped(frame[0].ts, idr, frameBuf[..total], writeOk);
    }

    /** Stamps a frame and hands it to the muxer. */
    method WriteStamped(ts: int, idr: bool, data: seq<int>, writeOk: bool) returns (result: int)
      requires Valid() && fmtCtx.Some?
      modifies this
      ensures Valid()
      ensures Outcome(Abs(), trace, result)
           == var o := StampStep(old(Abs()), ts, idr, data, writeOk); o.(events := old(trace) + o.events)
    {
      hide T.StampAll;
      StampNext(stamped, ts);
      if firstPts < 0 {
        firstPts := ts;
      }
      var relative := ts - firstPts;
      if relative <= lastRelative {
        relative := lastRelative + 1;
      }
      lastRelative := relative;
      stamped := stamped + [ts];
      trace := trace + [Video(videoStream.value, idr, ts, relative, data, writeOk)];
      if !writeOk {
        CloseChunk();
        return -1;
      }
      frameCount := frameCount + 1;
      return 0;
    }

    /** mkv_recorder_write_audio_frame. */
    method WriteAudio(len: int, writeOk: bool) returns (result: int)
      requires Valid()
      modifies this
      ensures Valid()
      ensures Outcome(Abs(), trace, result)
           == var o := AudioStep(old(Abs()), len, writeOk, cfg); o.(events := old(trace) + o.events)
    {
      hide T.StampAll;
      if !cfg.enabled || !cfg.audioEnabled || len <= 0 {
        return 0;
      }
      trace := trace + [AudioCall];
      if fmtCtx.None? || audioStream.None? {
        return 0;
      }
      if firstPts < 0 {
        return 0;
      }
      trace := trace + [Audio(audioStream.value, writeOk)];
      assert trace == old(trace) + [AudioCall, Audio(audioStream.value, writeOk)];
      if !writeOk {
        CloseChunk();
        return -1;
      }
      return 0;
    }

    /** mkv_recorder_shutdown. */
    method Stop()
      requires Valid()
      modifies this, inspector
      ensures Valid() && fmtCtx.None?
      ensures Abs() == StopStep(old(Abs())).next
      ensures trace == old(trace) + StopStep(old(Abs())).events
    {
      hide T.StampAll;
      trace := trace + [Shutdown];
      CloseChunk();
      inspector.Clear();
      frameBuf := [];
    }
  }

  lemma SizeOfNothing()
    ensures Size([]) == 0 && Payload([]) == []
  {
  }

  /** Each pack is found behind those before it. */
  lemma {:induction false} PackPlaced(frame: Frame, i: nat)
    requires i < |frame|
    ensures Payload(frame[..i + 1]) == Payload(frame[..i]) + frame[i].data
    ensures Size(frame[..i + 1]) == Size(frame[..i]) + |frame[i].data| <= Size(frame)
    ensures Payload(frame)[Size(frame[..i])..Size(frame[..i + 1])] == frame[i].data
  {
    assert frame[..i + 1][..i] == frame[..i];
    var n := |frame| - 1;
    if i < n {
      PackPlaced(frame[..n], i);
      assert frame[..n][..i] == frame[..i] && frame[..n][..i + 1] == frame[..i + 1];
    } else {
      assert frame[..i + 1] == frame;
    }
  }

  lemma ClearClock()
    ensures T.StampAll([]) == T.FRESH
  {
  }

  lemma StampNext(ts: seq<int>, next: int)
    ensures T.StampAll(ts + [next]) == T.Stamp(T.StampAll(ts), next)
  {
    assert (ts + [next])[..|ts|] == ts;
  }

  // ---- whole sessions ----

  datatype Op =
    | VideoOp(frame: Frame, mallocs: seq<bool>, now: int, env: OpenEnv, reallocOk: bool, writeOk: bool)
    | AudioOp(len: int, writeOk: bool)

  predicate WellFormed(op: Op) {
    op.VideoOp? ==> |op.mallocs| == |op.frame|
  }

  function Apply(s: State, op: Op, cfg: Config): Outcome
    requires WellFormed(op)
  {
    match op
    case VideoOp(frame, mallocs, now, env, reallocOk, writeOk) =>
      VideoStep(s, frame, mallocs, now, env, reallocOk, writeOk, cfg)
    case AudioOp(len, writeOk) => AudioStep(s, len, writeOk, cfg)
  }

  predicate AllWellFormed(ops: seq<Op>) {
    forall i :: 0 <= i < |ops| ==> WellFormed(ops[i])
  }

  datatype History = History(state: State, trace: Trace, results: seq<int>)

  /** Any interleaving of video and audio calls. */
  function Run(cfg: Config, ops: seq<Op>): History
    requires AllWellFormed(ops)
  {
    if ops == [] then History(INITIAL, [], [])
    else
      var before := Run(cfg, ops[..|ops| - 1]);
      var o := Apply(before.state, ops[|ops| - 1], cfg);
      History(o.next, before.trace + o.events, before.results + [o.result])
  }

  lemma RunNext(cfg: Config, ops: seq<Op>, i: nat)
    requires AllWellFormed(ops) && i < |ops|
    ensures var before, o := Run(cfg, ops[..i]), Apply(Run(cfg, ops[..i]).state, ops[i], cfg);
            Run(cfg, ops[..i + 1]) == History(o.next, before.trace + o.events, before.results + [o.result])
  {
    hide Apply;
    assert ops[..i + 1][..i] == ops[..i];
  }

  /** ... and a shutdown. */
  function TraceOf(cfg: Config, ops: seq<Op>): Trace
    requires AllWellFormed(ops)
  {
    Run(cfg, ops).trace + StopStep(Run(cfg, ops).state).events
  }

  method Session(cfg: Config, ops: seq<Op>) returns (results: seq<int>, ghost trace: Trace)
    requires AllWellFormed(ops)
    ensures results == Run(cfg, ops).results
    ensures trace == TraceOf(cfg, ops)
  {
    hide VideoStep, AudioStep, StopStep;
    var r := new Recorder(cfg);
    results := [];
    for i := 0 to |ops|
      invariant r.Valid() && r.cfg == cfg && fresh(r) && fresh(r.inspector)
      invariant History(r.Abs(), r.trace, results) == Run(cfg, ops[..i])
    {
      RunNext(cfg, ops, i);
      var result;
      match ops[i] {
        case VideoOp(frame, mallocs, now, env, reallocOk, writeOk) =>
          result := r.WriteFrame(frame, mallocs, now, env, reallocOk, writeOk);
        case AudioOp(len, writeOk) =>
          result := r.WriteAudio(len, writeOk);
      }
      results := results + [result];
    }
    assert ops[..|ops|] == ops;
    r.Stop();
    trace := r.trace;
  }
}
