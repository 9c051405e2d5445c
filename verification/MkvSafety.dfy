/** What a safe trace guarantees, stated on the events alone, and with it what
    the recorder guarantees over a whole session. */
module MkvSafety {
  import opened CLib
  import opened MkvFastPath
  import opened MkvMonitor
  import opened MkvRecorder
  import T = MkvTimestamps

  lemma {:induction false} PrefixSafe(t: Trace, j: nat, cfg: Config)
    requires Safe(t, cfg) && j < |t|
    ensures Safe(t[..j], cfg) && Allowed(Watch(t[..j], cfg).value, t[j], cfg)
  {
    hide Allowed, Observe;
    var n := |t| - 1;
    if j < n {
      PrefixSafe(t[..n], j, cfg);
      assert t[..n][..j] == t[..j];
    }
  }

  /** The last event of a safe trace and the monitor around it. */
  lemma Unfold(t: Trace, cfg: Config)
    requires Safe(t, cfg) && t != []
    ensures var before := t[..|t| - 1];
            && Safe(before, cfg)
            && Allowed(Watch(before, cfg).value, t[|t| - 1], cfg)
            && Watch(t, cfg).value == Observe(Watch(before, cfg).value, t[|t| - 1], cfg)
            && t == before + [t[|t| - 1]]
  {
  }

  // ---- contexts ----

  function Times(t: Trace, e: Event): nat {
    multiset(t)[e]
  }

  /** Every context is created at most once and freed at most once, and all but
      the live one have been freed. */
  lemma {:induction false} FreedExactlyOnce(t: Trace, cfg: Config, id: nat)
    requires Safe(t, cfg)
    ensures var m := Watch(t, cfg).value;
            && Times(t, Alloc(id)) == (if id in m.used then 1 else 0)
            && Times(t, Free(id)) == (if id in m.used && !Current(m, id) then 1 else 0)
            && (Current(m, id) ==> id in m.used)
  {
    hide Watch;
    if t == [] {
      Empty(cfg);
    } else {
      Unfold(t, cfg);
      FreedExactlyOnce(t[..|t| - 1], cfg, id);
    }
  }

  lemma Empty(cfg: Config)
    ensures Watch([], cfg) == Some(QUIET)
  {
  }

  // ---- audio ----

  predicate VideoWritten(t: Trace, id: nat) {
    exists i :: 0 <= i < |t| && t[i].Video? && t[i].id == id && t[i].ok
  }

  lemma VideoWrittenLonger(t: Trace, more: Trace, id: nat)
    requires VideoWritten(t, id)
    ensures VideoWritten(t + more, id)
  {
    var i :| 0 <= i < |t| && t[i].Video? && t[i].id == id && t[i].ok;
    assert (t + more)[i] == t[i];
  }

  lemma {:induction false} VideoInMeansWritten(t: Trace, cfg: Config)
    requires Safe(t, cfg)
    ensures var m := Watch(t, cfg).value;
            m.chunk.Some? && m.chunk.value.videoIn ==> VideoWritten(t, m.chunk.value.id)
  {
    hide Watch;
    if t == [] {
      Empty(cfg);
    } else {
      var before, e := t[..|t| - 1], t[|t| - 1];
      Unfold(t, cfg);
      VideoInMeansWritten(before, cfg);
      var c := Watch(before, cfg).value.chunk;
      if c.Some? && c.value.videoIn {
        VideoWrittenLonger(before, [e], c.value.id);
      }
      if e.Video? && e.ok {
        assert t[|t| - 1] == e;
        assert VideoWritten(t, e.id);
      }
    }
  }

  /** No audio packet goes into a file before its first written video packet. */
  lemma AudioAfterVideo(t: Trace, cfg: Config, j: nat)
    requires Safe(t, cfg) && j < |t| && t[j].Audio?
    ensures exists i :: 0 <= i < j && t[i].Video? && t[i].id == t[j].id && t[i].ok
  {
    hide Watch;
    PrefixSafe(t, j, cfg);
    VideoInMeansWritten(t[..j], cfg);
    var i :| 0 <= i < j && t[..j][i].Video? && t[..j][i].id == t[j].id && t[..j][i].ok;
    assert t[i] == t[..j][i];
  }

  // ---- failed writes ----

  predicate IsPacket(e: Event) {
    e.Video? || e.Audio?
  }

  predicate IsIdrCall(e: Event) {
    e.VideoCall? && e.idr
  }

  predicate IdrBetween(t: Trace, i: nat, j: nat)
    requires j <= |t|
  {
    exists k :: i < k < j && IsIdrCall(t[k])
  }

  lemma {:induction false} FailureIsRemembered(t: Trace, cfg: Config, i: nat)
    requires Safe(t, cfg) && i < |t| && IsPacket(t[i]) && !t[i].ok
    requires forall k :: i < k < |t| ==> !IsIdrCall(t[k])
    ensures Watch(t, cfg).value.failedSinceIdr
  {
    hide Watch;
    Unfold(t, cfg);
    if i < |t| - 1 {
      var before := t[..|t| - 1];
      assert before[i] == t[i];
      forall k | i < k < |before|
        ensures !IsIdrCall(before[k])
      {
        assert before[k] == t[k];
      }
      FailureIsRemembered(before, cfg, i);
      assert !IsIdrCall(t[|t| - 1]);
    }
  }

  /** Between a failed write and the next packet of any kind stands an IDR. */
  lemma IdrBetweenFailureAndPacket(t: Trace, cfg: Config, i: nat, j: nat)
    requires Safe(t, cfg) && i < j < |t|
    requires IsPacket(t[i]) && !t[i].ok && IsPacket(t[j])
    ensures IdrBetween(t, i, j)
  {
    hide Watch;
    PrefixSafe(t, j, cfg);
    if !IdrBetween(t, i, j) {
      var u := t[..j];
      assert u[i] == t[i];
      forall k | i < k < |u|
        ensures !IsIdrCall(u[k])
      {
        assert u[k] == t[k];
      }
      FailureIsRemembered(u, cfg, i);
    }
  }

  // ---- opening and rotation ----

  predicate IsCall(e: Event) {
    e.VideoCall? || e.AudioCall? || e.Shutdown?
  }

  /** Event k is the call during which the trace stands at j. */
  predicate LastCall(t: Trace, k: int, j: nat) {
    0 <= k < j <= |t| && IsCall(t[k]) && forall l :: k < l < j ==> !IsCall(t[l])
  }

  lemma {:induction false} CallerIsLastCall(t: Trace, cfg: Config)
    requires Safe(t, cfg)
    ensures var m := Watch(t, cfg).value;
            m.caller.ByVideo? ==>
              exists k :: LastCall(t, k, |t|) && t[k] == VideoCall(m.caller.idr, m.caller.now)
    ensures Watch(t, cfg).value.caller.ByShutdown? ==> exists k :: LastCall(t, k, |t|) && t[k].Shutdown?
  {
    hide Watch, Allowed;
    if t == [] {
      Empty(cfg);
    } else {
      var n := |t| - 1;
      Unfold(t, cfg);
      CallerIsLastCall(t[..n], cfg);
      var caller := Watch(t[..n], cfg).value.caller;
      if IsCall(t[n]) {
        assert LastCall(t, n, |t|);
      } else if caller.ByVideo? {
        var k :| LastCall(t[..n], k, n) && t[..n][k] == VideoCall(caller.idr, caller.now);
        assert LastCall(t, k, |t|) && t[k] == t[..n][k];
      } else if caller.ByShutdown? {
        var k :| LastCall(t[..n], k, n) && t[..n][k].Shutdown?;
        assert LastCall(t, k, |t|) && t[k] == t[..n][k];
      }
    }
  }

  /** A chunk is opened only by a video call that carries an IDR. */
  lemma OpensAtIdr(t: Trace, cfg: Config, j: nat)
    requires Safe(t, cfg) && j < |t| && t[j].Alloc?
    ensures exists k :: LastCall(t, k, j) && IsIdrCall(t[k])
  {
    hide Watch;
    PrefixSafe(t, j, cfg);
    CallerIsLastCall(t[..j], cfg);
    var k :| LastCall(t[..j], k, j) && IsIdrCall(t[..j][k]);
    assert LastCall(t, k, j) && t[k] == t[..j][k];
  }

  predicate ReadyEvent(t: Trace, id: nat, at: int) {
    exists r :: 0 <= r < |t| && t[r] == Ready(id, at)
  }

  predicate FailedWrite(t: Trace, id: nat) {
    exists i :: 0 <= i < |t| && IsPacket(t[i]) && t[i].id == id && !t[i].ok
  }

  lemma {:induction false} ChunkHistory(t: Trace, cfg: Config)
    requires Safe(t, cfg) && Watch(t, cfg).value.chunk.Some?
    ensures var c := Watch(t, cfg).value.chunk.value;
            && (c.ready ==> ReadyEvent(t, c.id, c.readyAt))
            && (c.failed ==> FailedWrite(t, c.id))
  {
    hide Watch;
    if t == [] {
      Empty(cfg);
    } else {
      var n := |t| - 1;
      Unfold(t, cfg);
      var previous := Watch(t[..n], cfg).value.chunk;
      var e := t[n];
      if previous.Some? {
        ChunkHistory(t[..n], cfg);
        if previous.value.ready {
          var r :| 0 <= r < n && t[..n][r] == Ready(previous.value.id, previous.value.readyAt);
          assert t[r] == Ready(previous.value.id, previous.value.readyAt);
        }
        if previous.value.failed {
          var i :| 0 <= i < n && IsPacket(t[..n][i]) && t[..n][i].id == previous.value.id && !t[..n][i].ok;
          assert t[i] == t[..n][i];
        }
      }
    }
  }

  /** A chunk that did not fail ends only on shutdown or on an IDR that arrives
      when the chunk is at least chunk_duration old. */
  lemma RotatesWhenDue(t: Trace, cfg: Config, j: nat)
    requires Safe(t, cfg) && j < |t| && t[j].Trailer?
    requires !FailedWrite(t[..j], t[j].id)
    ensures exists k :: LastCall(t, k, j) &&
              (t[k].Shutdown? ||
               (IsIdrCall(t[k]) && exists at :: ReadyEvent(t, t[j].id, at) && t[k].now - at >= cfg.chunkDuration))
  {
    hide Watch;
    PrefixSafe(t, j, cfg);
    var u := t[..j];
    var m := Watch(u, cfg).value;
    ChunkHistory(u, cfg);
    CallerIsLastCall(u, cfg);
    var r :| 0 <= r < j && u[r] == Ready(t[j].id, m.chunk.value.readyAt);
    assert t[r] == u[r];
    assert ReadyEvent(t, t[j].id, m.chunk.value.readyAt);
    var k :| LastCall(u, k, j) && (u[k].Shutdown? || (IsIdrCall(u[k]) && u[k].now == m.caller.now));
    assert LastCall(t, k, j) && t[k] == u[k];
  }

  // ---- what must happen ----

  lemma {:induction false} OpenFile(t: Trace, cfg: Config, id: nat, at: int)
    requires Safe(t, cfg) && Ready(id, at) in t && Free(id) !in t
    ensures var m := Watch(t, cfg).value;
            Current(m, id) && m.chunk.value.ready && m.chunk.value.readyAt == at
  {
    hide Watch;
    var before, e := t[..|t| - 1], t[|t| - 1];
    Unfold(t, cfg);
    if e != Ready(id, at) {
      OpenFile(before, cfg, id, at);
    }
  }

  /** A duty is met at once: whatever follows in a safe trace begins with it. */
  lemma DutyMet(t: Trace, cfg: Config, j: nat)
    requires Safe(t, cfg) && Watch(t, cfg).value.duty.NoDuty? && j <= |t|
    requires Watch(t[..j], cfg).Some?
    ensures var m := Watch(t[..j], cfg).value;
            && (m.duty.MustTrail? ==> j < |t| && t[j].Trailer? && Current(m, t[j].id))
            && (m.duty.MustFree? ==> j < |t| && t[j].Free? && Current(m, t[j].id))
  {
    hide Watch;
    if j < |t| {
      PrefixSafe(t, j, cfg);
    } else {
      assert t[..j] == t;
    }
  }

  lemma WatchStep(t: Trace, cfg: Config, j: nat)
    requires Safe(t, cfg) && j < |t|
    ensures Safe(t[..j], cfg) && Safe(t[..j + 1], cfg)
    ensures Allowed(Watch(t[..j], cfg).value, t[j], cfg)
    ensures Watch(t[..j + 1], cfg).value == Observe(Watch(t[..j], cfg).value, t[j], cfg)
  {
    hide Watch, Observe, Allowed;
    PrefixSafe(t, j, cfg);
    if j + 1 < |t| {
      PrefixSafe(t, j + 1, cfg);
    } else {
      assert t[..j + 1] == t;
    }
    Unfold(t[..j + 1], cfg);
    assert t[..j + 1][..j] == t[..j];
  }

  /** The file that is ended by event j: its trailer and its release follow. */
  predicate EndsAfter(t: Trace, j: nat, id: nat) {
    j + 2 < |t| && t[j + 1] == Trailer(id) && t[j + 2] == Free(id)
  }

  lemma TrailThenFree(t: Trace, cfg: Config, j: nat, id: nat)
    requires Safe(t, cfg) && Watch(t, cfg).value.duty.NoDuty? && j < |t|
    requires Safe(t[..j + 1], cfg)
    requires var m := Watch(t[..j + 1], cfg).value; m.duty.MustTrail? && Current(m, id)
    ensures EndsAfter(t, j, id)
  {
    hide Watch;
    DutyMet(t, cfg, j + 1);
    WatchStep(t, cfg, j + 1);
    DutyMet(t, cfg, j + 2);
  }

  /** An IDR that finds its file at least chunk_duration old ends it there and
      then. */
  lemma DueIdrEndsFile(t: Trace, cfg: Config, id: nat, at: int, j: nat)
    requires Safe(t, cfg) && Watch(t, cfg).value.duty.NoDuty? && j < |t|
    requires Ready(id, at) in t[..j] && Free(id) !in t[..j]
    requires IsIdrCall(t[j]) && t[j].now - at >= cfg.chunkDuration
    ensures EndsAfter(t, j, id)
  {
    hide Watch;
    WatchStep(t, cfg, j);
    OpenFile(t[..j], cfg, id, at);
    TrailThenFree(t, cfg, j, id);
  }

  /** So does a failed write of either kind. */
  lemma FailureEndsFile(t: Trace, cfg: Config, j: nat)
    requires Safe(t, cfg) && Watch(t, cfg).value.duty.NoDuty? && j < |t|
    requires IsPacket(t[j]) && !t[j].ok
    ensures EndsAfter(t, j, t[j].id)
  {
    hide Watch;
    WatchStep(t, cfg, j);
    TrailThenFree(t, cfg, j, t[j].id);
  }

  lemma {:induction false} FreedIsUsed(t: Trace, cfg: Config, id: nat)
    requires Safe(t, cfg) && Free(id) in t
    ensures var m := Watch(t, cfg).value; id in m.used && !Current(m, id)
  {
    hide Watch;
    Unfold(t, cfg);
    FreedExactlyOnce(t[..|t| - 1], cfg, id);
    if t[|t| - 1] != Free(id) {
      FreedIsUsed(t[..|t| - 1], cfg, id);
    }
  }

  /** Nothing goes into a file after its release. */
  lemma NothingAfterFree(t: Trace, cfg: Config, id: nat, i: nat, j: nat)
    requires Safe(t, cfg) && i < j < |t| && t[i] == Free(id)
    ensures IsPacket(t[j]) ==> t[j].id != id
  {
    hide Watch;
    PrefixSafe(t, j, cfg);
    assert t[..j][i] == Free(id);
    FreedIsUsed(t[..j], cfg, id);
  }

  /** Over whole sessions: no packet of a file follows an IDR that found it due. */
  lemma SessionRotates(cfg: Config, ops: seq<Op>, id: nat, at: int, j: nat, k: nat)
    requires AllWellFormed(ops)
    requires var t := TraceOf(cfg, ops);
             && j < k < |t| && Ready(id, at) in t[..j] && IsIdrCall(t[j]) && t[j].now - at >= cfg.chunkDuration
    ensures var t := TraceOf(cfg, ops); IsPacket(t[k]) ==> t[k].id != id
  {
    hide Watch, TraceOf;
    var t := TraceOf(cfg, ops);
    SessionSafe(cfg, ops);
    if Free(id) in t[..j] {
      var i :| 0 <= i < j && t[..j][i] == Free(id);
      NothingAfterFree(t, cfg, id, i, k);
    } else {
      DueIdrEndsFile(t, cfg, id, at, j);
      if k > j + 2 {
        NothingAfterFree(t, cfg, id, j + 2, k);
      }
    }
  }

  // ---- what one call writes ----

  /** Nothing kept FFmpeg from opening a file. */
  predicate Openable(env: OpenEnv, cfg: Config) {
    && !env.diskFull && env.allocOk && env.videoStreamOk && (cfg.audioEnabled ==> env.audioStreamOk)
    && env.avioOk && env.headerOk
  }

  predicate WritesTo(t: Trace, id: nat, key: bool, ts: int, data: seq<int>) {
    exists i :: 0 <= i < |t| && t[i].Video? && t[i].id == id && t[i].key == key && t[i].ts == ts && t[i].data == data
  }

  /** A video call writes its frame if and only if recording is on, both
      parameter sets were seen, there is a file for it, and the frame has data
      and a buffer; the packet then holds all packs of the frame. The file is
      the open one unless an IDR finds it due, else a new one that an IDR can
      open. The call fails only if the frame could not be buffered or written. */
  lemma FrameWritten(s: State, frame: Frame, mallocs: seq<bool>, now: int, env: OpenEnv, reallocOk: bool,
                     writeOk: bool, cfg: Config)
    requires |mallocs| == |frame|
    ensures var (cache, idr) := Fast(s.cache, frame, mallocs);
            var o := VideoStep(s, frame, mallocs, now, env, reallocOk, writeOk, cfg);
            var due := s.ctx.Some? && idr && now - s.chunkStart >= cfg.chunkDuration;
            var stays := s.ctx.Some? && !due;
            var id := if stays then s.ctx.value else s.nextId;
            var has := cfg.enabled && cache.gotExtradata && (stays || (idr && Openable(env, cfg)));
            var fits := Size(frame) <= s.bufSize || reallocOk;
            && (forall i, key, ts, data :: WritesTo(o.events, i, key, ts, data)
                  <==> has && Size(frame) > 0 && fits
                       && i == id && key == idr && ts == frame[0].ts && data == Payload(frame))
            && (o.result == -1 <==> has && Size(frame) > 0 && !(fits && writeOk))
            && (o.result == 0 || o.result == -1)
  {
    hide Fast, Size, Payload, DeliverStep;
    SizeOfNothing();
    var (cache, idr) := Fast(s.cache, frame, mallocs);
    var entered := EnterStep(s.(cache := cache), idr, now, cfg);
    var delivered := DeliverStep(entered.next, frame, idr, env, reallocOk, writeOk, cfg);
    Delivered(entered.next, frame, idr, env, reallocOk, writeOk, cfg);
    forall i, key, ts, data
      ensures WritesTo(entered.events + delivered.events, i, key, ts, data)
         <==> WritesTo(delivered.events, i, key, ts, data)
    {
      WritesBehind(entered.events, delivered.events, i, key, ts, data);
    }
  }

  lemma WritesBehind(t: Trace, u: Trace, id: nat, key: bool, ts: int, data: seq<int>)
    requires forall i :: 0 <= i < |t| ==> !t[i].Video?
    ensures WritesTo(t + u, id, key, ts, data) <==> WritesTo(u, id, key, ts, data)
  {
    if WritesTo(u, id, key, ts, data) {
      var i :| 0 <= i < |u| && u[i].Video? && u[i].id == id && u[i].key == key && u[i].ts == ts && u[i].data == data;
      assert (t + u)[|t| + i] == u[i];
    }
  }

  lemma Delivered(s: State, frame: Frame, idr: bool, env: OpenEnv, reallocOk: bool, writeOk: bool, cfg: Config)
    ensures var o := DeliverStep(s, frame, idr, env, reallocOk, writeOk, cfg);
            var id := if s.ctx.Some? then s.ctx.value else s.nextId;
            var has := s.ctx.Some? || (idr && Openable(env, cfg));
            && (forall i, key, ts, data :: WritesTo(o.events, i, key, ts, data)
                  <==> has && Size(frame) > 0 && BufferOk(s, frame, reallocOk)
                       && i == id && key == idr && ts == frame[0].ts && data == Payload(frame))
            && (o.result == -1 <==> has && Size(frame) > 0 && !(BufferOk(s, frame, reallocOk) && writeOk))
            && (o.result == 0 || o.result == -1)
  {
    hide Size, Payload, WriteStep;
    var begun := if s.ctx.None? && idr then OpenStep(s, env, cfg) else Outcome(s, [], 0);
    assert forall i :: 0 <= i < |begun.events| ==> !begun.events[i].Video?;
    if begun.next.ctx.Some? {
      var written := WriteStep(begun.next, frame, idr, reallocOk, writeOk);
      WrittenFrame(begun.next, frame, idr, reallocOk, writeOk);
      forall i, key, ts, data
        ensures WritesTo(begun.events + written.events, i, key, ts, data)
           <==> WritesTo(written.events, i, key, ts, data)
      {
        WritesBehind(begun.events, written.events, i, key, ts, data);
      }
    }
  }

  lemma WrittenFrame(s: State, frame: Frame, idr: bool, reallocOk: bool, writeOk: bool)
    requires s.ctx.Some?
    ensures var o := WriteStep(s, frame, idr, reallocOk, writeOk);
            && (forall i, key, ts, data :: WritesTo(o.events, i, key, ts, data)
                  <==> Size(frame) > 0 && BufferOk(s, frame, reallocOk)
                       && i == s.ctx.value && key == idr && ts == frame[0].ts && data == Payload(frame))
            && (o.result == -1 <==> Size(frame) > 0 && !(BufferOk(s, frame, reallocOk) && writeOk))
            && (o.result == 0 || o.result == -1)
  {
    hide Size, Payload, T.StampAll;
    SizeOfNothing();
    var o := WriteStep(s, frame, idr, reallocOk, writeOk);
    if Size(frame) > 0 && BufferOk(s, frame, reallocOk) {
      assert o.events[0].Video?;
      assert forall i :: 0 < i < |o.events| ==> !o.events[i].Video?;
    }
  }

  lemma {:induction false} OriginSet(stamped: seq<int>)
    ensures T.StampAll(stamped).first >= 0 <==> exists i :: 0 <= i < |stamped| && stamped[i] >= 0
  {
    if stamped != [] {
      var n := |stamped| - 1;
      OriginSet(stamped[..n]);
      if T.StampAll(stamped[..n]).first >= 0 {
        var i :| 0 <= i < n && stamped[..n][i] >= 0;
        assert stamped[i] >= 0;
      } else {
        assert forall i :: 0 <= i < n ==> stamped[..n][i] == stamped[i];
      }
    }
  }

  /** An audio call writes its packet if and only if audio is recorded, the
      packet has data, a file is open, and a video frame has given the file its
      origin; it fails only if the write does. */
  lemma AudioWritten(s: State, len: int, writeOk: bool, cfg: Config)
    ensures var o := AudioStep(s, len, writeOk, cfg);
            var sends := cfg.enabled && cfg.audioEnabled && len > 0 && s.ctx.Some?
                         && exists i :: 0 <= i < |s.stamped| && s.stamped[i] >= 0;
            && (forall id: nat, ok :: Audio(id, ok) in o.events <==> sends && Some(id) == s.ctx && ok == writeOk)
            && o.result == if sends && !writeOk then -1 else 0
  {
    hide T.StampAll;
    OriginSet(s.stamped);
    var o := AudioStep(s, len, writeOk, cfg);
    if |o.events| > 1 {
      assert o.events[1] == Audio(s.ctx.value, writeOk);
    }
  }

  /** A buffer that had to grow has room for frames half as large again. */
  lemma BufferGrows(s: State, frame: Frame, idr: bool, reallocOk: bool, writeOk: bool, later: Frame)
    requires s.ctx.Some? && BufferOk(s, frame, reallocOk)
    ensures var next := WriteStep(s, frame, idr, reallocOk, writeOk).next;
            && (Size(later) <= Size(frame) || Size(later) <= s.bufSize ==> BufferOk(next, later, false))
            && (s.bufSize < Size(frame) && 2 * Size(later) <= 3 * Size(frame) ==> BufferOk(next, later, false))
  {
    hide Size, Payload, T.StampAll;
    SizeOfNothing();
  }

  // ---- key frames and timestamps ----

  /** The encoder timestamps of the video packets of a file, in order. */
  function TsOf(t: Trace, id: nat): seq<int> {
    if t == [] then []
    else
      var e := t[|t| - 1];
      TsOf(t[..|t| - 1], id) + if e.Video? && e.id == id then [e.ts] else []
  }

  lemma {:induction false} TsOfGrows(t: Trace, i: nat, id: nat)
    requires i <= |t|
    ensures TsOf(t[..i], id) <= TsOf(t, id)
  {
    var n := |t| - 1;
    if i < |t| {
      TsOfGrows(t[..n], i, id);
      assert t[..n][..i] == t[..i];
    } else {
      assert t[..i] == t;
    }
  }

  lemma TsOfNext(t: Trace, j: nat, id: nat)
    requires j < |t|
    ensures TsOf(t[..j + 1], id) == TsOf(t[..j], id) + if t[j].Video? && t[j].id == id then [t[j].ts] else []
  {
    assert t[..j + 1][..j] == t[..j];
  }

  lemma {:induction false} StampedIsTsOf(t: Trace, cfg: Config, id: nat)
    requires Safe(t, cfg)
    ensures var m := Watch(t, cfg).value;
            && (Current(m, id) ==> m.chunk.value.stamped == TsOf(t, id))
            && (id !in m.used ==> TsOf(t, id) == [])
  {
    hide Watch;
    if t == [] {
      Empty(cfg);
    } else {
      Unfold(t, cfg);
      StampedIsTsOf(t[..|t| - 1], cfg, id);
      FreedExactlyOnce(t[..|t| - 1], cfg, id);
    }
  }

  /** Every video packet carries the closed-form DTS of the encoder timestamps of
      its file up to and including its own. */
  lemma WrittenDts(t: Trace, cfg: Config, j: nat)
    requires Safe(t, cfg) && j < |t| && t[j].Video?
    ensures var ts := TsOf(t[..j + 1], t[j].id);
            && ts != [] && ts[|ts| - 1] == t[j].ts
            && t[j].dts == T.Dts(ts, |ts| - 1)
            && T.IsClosedForm(t[j].dts, ts, |ts| - 1)
  {
    hide Watch, T.StampAll, T.IsClosedForm;
    PrefixSafe(t, j, cfg);
    StampedIsTsOf(t[..j], cfg, t[j].id);
    TsOfNext(t, j, t[j].id);
    var ts := TsOf(t[..j + 1], t[j].id);
    assert ts[..|ts|] == ts;
    T.ClosedForm(ts, |ts| - 1);
  }

  /** In every file the written video DTS strictly increase, and the first is 0. */
  lemma DtsIncrease(t: Trace, cfg: Config, i: nat, j: nat)
    requires Safe(t, cfg) && i <= j < |t| && t[i].Video? && t[j].Video? && t[i].id == t[j].id
    ensures i < j ==> t[i].dts < t[j].dts
    ensures TsOf(t[..j], t[j].id) == [] ==> t[j].dts == 0
  {
    hide Watch, T.StampAll, T.IsClosedForm;
    var id := t[j].id;
    var ts, us := TsOf(t[..i + 1], id), TsOf(t[..j + 1], id);
    WrittenDts(t, cfg, i);
    WrittenDts(t, cfg, j);
    TsOfNext(t, j, id);
    if i < j {
      TsOfGrows(t[..j], i + 1, id);
      assert t[..j][..i + 1] == t[..i + 1];
      assert us[..|ts|] == ts == ts[..|ts|];
      T.StrictlyIncreasing(us, |ts| - 1, |us| - 1);
    } else {
      T.StrictlyIncreasing(us, 0, 0);
    }
  }

  predicate GivenUp(t: Trace, id: nat) {
    Skipped(id) in t
  }

  lemma {:induction false} SkippedMeansGivenUp(t: Trace, cfg: Config)
    requires Safe(t, cfg)
    ensures var m := Watch(t, cfg).value;
            m.chunk.Some? && m.chunk.value.skipped ==> GivenUp(t, m.chunk.value.id)
  {
    hide Watch;
    if t == [] {
      Empty(cfg);
    } else {
      Unfold(t, cfg);
      SkippedMeansGivenUp(t[..|t| - 1], cfg);
    }
  }

  /** The first video packet of a file is a key frame, unless a frame was given
      up before it. */
  lemma FirstPacketIsKey(t: Trace, cfg: Config, j: nat)
    requires Safe(t, cfg) && j < |t| && t[j].Video? && TsOf(t[..j], t[j].id) == []
    ensures t[j].key || GivenUp(t[..j], t[j].id)
  {
    hide Watch;
    PrefixSafe(t, j, cfg);
    StampedIsTsOf(t[..j], cfg, t[j].id);
    SkippedMeansGivenUp(t[..j], cfg);
  }

  predicate NoReady(t: Trace) {
    forall i :: 0 <= i < |t| ==> !t[i].Ready?
  }

  lemma WriteBegins(s: State, frame: Frame, idr: bool, reallocOk: bool, writeOk: bool)
    requires s.ctx.Some?
    ensures var t := WriteStep(s, frame, idr, reallocOk, writeOk).events;
            && NoReady(t) && t != []
            && t[0] == if Size(frame) > 0 && BufferOk(s, frame, reallocOk)
                       then Video(s.ctx.value, idr, frame[0].ts, T.StampAll(s.stamped + [frame[0].ts]).last,
                                  Payload(frame), writeOk)
                       else Skipped(s.ctx.value)
  {
    hide Size, Payload, T.StampAll;
    SizeOfNothing();
  }

  /** What a call that opens a file does with its frame. */
  function Opener(id: nat, frame: Frame, fits: bool, writeOk: bool): Event {
    if Size(frame) > 0 && frame != [] && fits
    then Video(id, true, frame[0].ts, 0, Payload(frame), writeOk)
    else Skipped(id)
  }

  lemma OpeningDelivery(s: State, frame: Frame, idr: bool, env: OpenEnv, reallocOk: bool, writeOk: bool,
                        cfg: Config, j: nat)
    requires var t := DeliverStep(s, frame, idr, env, reallocOk, writeOk, cfg).events; j < |t| && t[j].Ready?
    ensures var t := DeliverStep(s, frame, idr, env, reallocOk, writeOk, cfg).events;
            && j + 1 < |t| && t[j] == Ready(s.nextId, env.now)
            && t[j + 1] == Opener(s.nextId, frame, BufferOk(s, frame, reallocOk), writeOk)
  {
    hide Size, Payload, WriteStep, T.StampAll;
    SizeOfNothing();
    var begun := if s.ctx.None? && idr then OpenStep(s, env, cfg) else Outcome(s, [], 0);
    if begun.next.ctx.Some? {
      WriteBegins(begun.next, frame, idr, reallocOk, writeOk);
      if frame != [] {
        T.DtsFirst([frame[0].ts]);
        assert [frame[0].ts][..1] == [] + [frame[0].ts];
      }
    }
  }

  /** A call that opens a file writes its frame right after the header, as a key
      frame, if and only if the frame has data and a buffer for it; otherwise it
      gives the frame up. */
  lemma OpeningFrame(s: State, frame: Frame, mallocs: seq<bool>, now: int, env: OpenEnv, reallocOk: bool,
                     writeOk: bool, cfg: Config, j: nat)
    requires |mallocs| == |frame|
    requires var t := VideoStep(s, frame, mallocs, now, env, reallocOk, writeOk, cfg).events;
             j < |t| && t[j].Ready?
    ensures var t := VideoStep(s, frame, mallocs, now, env, reallocOk, writeOk, cfg).events;
            var good := Size(frame) > 0 && BufferOk(s, frame, reallocOk);
            && j + 1 < |t|
            && (t[j + 1].Video? && t[j + 1].id == t[j].id && t[j + 1].key && t[j + 1].dts == 0 <==> good)
            && (t[j + 1] == Skipped(t[j].id) <==> !good)
  {
    hide Fast, Size, Payload, DeliverStep;
    SizeOfNothing();
    var (cache, idr) := Fast(s.cache, frame, mallocs);
    var entered := EnterStep(s.(cache := cache), idr, now, cfg);
    assert NoReady(entered.events);
    OpeningDelivery(entered.next, frame, idr, env, reallocOk, writeOk, cfg, j - |entered.events|);
  }

  // ---- whole sessions ----

  /** Every context that a session creates is freed, and none twice. */
  lemma SessionFrees(cfg: Config, ops: seq<Op>, id: nat)
    requires AllWellFormed(ops)
    ensures var t := TraceOf(cfg, ops); Times(t, Alloc(id)) == Times(t, Free(id)) <= 1
  {
    hide Watch, Run, StopStep;
    SessionSafe(cfg, ops);
    FreedExactlyOnce(TraceOf(cfg, ops), cfg, id);
  }

  const GOOD := OpenEnv(false, true, true, true, true, true, 100)

  /** An IDR frame with its parameter sets for which no buffer can be had, and
      the plain frame that follows it. */
  const UNBUFFERED := [VideoOp([Pack(Sps, [7], 0), Pack(Pps, [8], 0), Pack(Idr, [5], 0)], [true, true, true],
                               100, GOOD, false, true),
                       VideoOp([Pack(Other, [1], 40)], [true], 100, GOOD, true, true)]

  const RECORDING := Config(true, false, 60)

  const HELD := Cache(Param(Some([7]), 1), Param(Some([8]), 1), true)

  /** The file then opens with a frame that is no key frame. */
  lemma FirstPacketNotKey()
    ensures AllWellFormed(UNBUFFERED)
    ensures TraceOf(RECORDING, UNBUFFERED)
         == [VideoCall(true, 100), Alloc(0), Ready(0, 100), Skipped(0),
             VideoCall(false, 100), Video(0, false, 40, 0, [1], true),
             Shutdown, Trailer(0), Free(0)]
  {
    hide Apply;
    assert Run(RECORDING, []).state == INITIAL;
    assert UNBUFFERED[..1][..0] == [] && UNBUFFERED[..2] == UNBUFFERED;
    UnbufferedCalls();
    RunNext(RECORDING, UNBUFFERED, 0);
    RunNext(RECORDING, UNBUFFERED, 1);
  }

  lemma UnbufferedCalls()
    ensures var waiting := State(HELD, Some(0), 1, 100, [], 0);
            && Apply(INITIAL, UNBUFFERED[0], RECORDING)
            == Outcome(waiting, [VideoCall(true, 100), Alloc(0), Ready(0, 100), Skipped(0)], -1)
            && Apply(waiting, UNBUFFERED[1], RECORDING)
            == Outcome(waiting.(stamped := [40], bufSize := 1),
                       [VideoCall(false, 100), Video(0, false, 40, 0, [1], true)], 0)
  {
    hide Apply;
    UnbufferedCall();
    PlainCall();
  }

  lemma UnbufferedCall()
    ensures Apply(INITIAL, UNBUFFERED[0], RECORDING)
         == Outcome(State(HELD, Some(0), 1, 100, [], 0),
                    [VideoCall(true, 100), Alloc(0), Ready(0, 100), Skipped(0)], -1)
  {
    hide Fast;
    IdrIsCached();
    assert Size(UNBUFFERED[0].frame) > 0;
  }

  lemma PlainCall()
    ensures var waiting := State(HELD, Some(0), 1, 100, [], 0);
            Apply(waiting, UNBUFFERED[1], RECORDING)
            == Outcome(waiting.(stamped := [40], bufSize := 1),
                       [VideoCall(false, 100), Video(0, false, 40, 0, [1], true)], 0)
  {
    hide InspectPacks;
    assert UNBUFFERED[1].frame[..0] == [] && Payload(UNBUFFERED[1].frame) == [] + [1] == [1];
    StampNext([], 40);
    assert [40] == [] + [40];
  }

  lemma IdrIsCached()
    ensures Fast(EMPTY, UNBUFFERED[0].frame, UNBUFFERED[0].mallocs) == (HELD, true)
  {
    var frame, oks := UNBUFFERED[0].frame, [true, true, true];
    assert frame[2].nal == Idr;
    assert frame[..3] == frame && frame[..2][..1] == frame[..1] && frame[..1][..0] == [];
    assert oks[..3] == oks && oks[..2][..1] == oks[..1];
    assert InspectPacks(EMPTY, frame[..1], oks[..1]) == Cache(Param(Some([7]), 1), Param(None, 0), false);
    assert InspectPacks(EMPTY, frame[..2], oks[..2]) == HELD.(gotExtradata := false);
  }
}
