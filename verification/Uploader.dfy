/** One file of the upload thread: skipped as dark, or posted chunk by chunk and
    deleted once it is uploaded. */
module Uploader {
  import opened CLib
  import opened HttpFraming
  import opened HttpNet
  import opened HttpClient
  import opened UploadRate
  import DarkSkip

  datatype Config = Config(adaptive: bool, rateLimit: int32, darkSkip: bool, dark: DarkSkip.Config)

  /** A finished recording as the scan found it. */
  datatype File = File(content: string, chunkStart: int, mtime: int)

  const MIN_FILE_SIZE: nat := 100 * 1024

  /** g_running: shutdown clears it at any moment and nothing sets it again. */
  class RunFlag {
    var running: bool
    ghost var answers: seq<bool>   // what the checks found, in order

    method Check() returns (r: bool)
      modifies this
      ensures r == running && (r ==> old(running))
      ensures answers == old(answers) + [r]
    {
      var cleared: bool := *;
      running := running && !cleared;
      answers := answers + [running];
      r := running;
    }
  }

  /** What the server sends for each chunk, to a first and to a second request. */
  type Server = nat -> (string, string)

  ghost predicate Framing(server: Server) {
    forall i :: Framed(server(i).0) && Framed(server(i).1)
  }

  /** A chunk that was acknowledged: the request that carried it, the body bytes
      that went out with it, and the reads that its status comes from. */
  datatype Ack = Ack(at: nat, body: string, rs: seq<Read>)

  function Bodies(acks: seq<Ack>): string {
    if acks == [] then "" else Bodies(acks[..|acks| - 1]) + acks[|acks| - 1].body
  }

  /** The bytes of the acknowledgement went over the wire: this request sent the
      body, and received what the status comes from. */
  predicate SentAs(a: Ack, requests: seq<Request>, host: string, port: string) {
    && a.at < |requests|
    && var q := requests[a.at];
       q.host == host && q.port == port && q.body == a.body && q.got == TakeAll(a.rs).got
  }

  /** One request for each acknowledgement, in order, none before `from`. */
  predicate OnWire(acks: seq<Ack>, requests: seq<Request>, from: nat, host: string, port: string) {
    && (forall i :: 0 <= i < |acks| ==> from <= acks[i].at && SentAs(acks[i], requests, host, port))
    && (forall i, j :: 0 <= i < j < |acks| ==> acks[i].at < acks[j].at)
  }

  lemma NoneOnWire(requests: seq<Request>, from: nat, host: string, port: string)
    ensures OnWire([], requests, from, host, port)
  {
  }

  /** What went over the wire stays there. */
  lemma WireGrows(acks: seq<Ack>, requests: seq<Request>, more: seq<Request>, from: nat, host: string, port: string)
    requires OnWire(acks, requests, from, host, port) && requests <= more
    ensures OnWire(acks, more, from, host, port)
  {
    forall i | 0 <= i < |acks|
      ensures SentAs(acks[i], more, host, port)
    {
      assert SentAs(acks[i], requests, host, port);
    }
  }

  lemma OnWireLonger(acks: seq<Ack>, ack: Ack, requests: seq<Request>, more: seq<Request>, from: nat,
                     host: string, port: string)
    requires OnWire(acks, requests, from, host, port) && requests <= more && from <= |requests|
    requires ack.at >= |requests| && SentAs(ack, more, host, port)
    ensures OnWire(acks + [ack], more, from, host, port)
  {
    WireGrows(acks, requests, more, from, host, port);
    forall i | 0 <= i < |acks|
      ensures acks[i].at < ack.at
    {
      assert SentAs(acks[i], requests, host, port);
    }
  }

  /** Every acknowledged chunk went out whole: no read of the file fell short. */
  predicate AllWhole(acks: seq<Ack>, content: string) {
    forall i :: 0 <= i < |acks| ==> acks[i].body == ChunkOf(content, i)
  }

  /** The acknowledgement carries the start of the i-th chunk, and its status is
      a 2xx; with `framed` replies it is read from a reply to that chunk. */
  ghost predicate AckOf(a: Ack, i: nat, content: string, server: Server, framed: bool) {
    && Success(StatusOr0(a.rs))
    && (framed ==> Answer(a.rs, server(i).0) || Answer(a.rs, server(i).1))
    && a.body <= ChunkOf(content, i)
  }

  ghost predicate Acked(acks: seq<Ack>, i: nat, content: string, server: Server, framed: bool)
    requires i < |acks|
  {
    AckOf(acks[i], i, content, server, framed)
  }

  ghost predicate AllAcked(acks: seq<Ack>, content: string, server: Server, framed: bool) {
    forall i :: 0 <= i < |acks| ==> Acked(acks, i, content, server, framed)
  }

  function ChunkOf(content: string, i: nat): string {
    Slice(content, i * CHUNK, CHUNK)
  }

  function TotalChunks(size: nat): nat {
    if size == 0 then 1 else (size + CHUNK - 1) / CHUNK
  }

  lemma ChunkCount(size: nat)
    ensures var total := (size + CHUNK - 1) / CHUNK; TotalChunks(size) == if total < 1 then 1 else total
  {
  }

  /** How far the first n chunks reach. */
  function Reach(content: string, n: nat): (r: nat)
    ensures r <= |content|
  {
    Min(n * CHUNK, |content|)
  }

  lemma ChunkAfterReach(content: string, n: nat)
    requires n < TotalChunks(|content|)
    ensures content[..Reach(content, n)] + ChunkOf(content, n) == content[..Reach(content, n + 1)]
    ensures n * CHUNK <= |content| && |ChunkOf(content, n)| == Reach(content, n + 1) - Reach(content, n)
    ensures |content| > 0 ==> n * CHUNK < |content|
  {
  }

  lemma ChunkLength(content: string, n: nat)
    requires n < TotalChunks(|content|)
    ensures n * CHUNK <= |content| && |ChunkOf(content, n)| == Min(CHUNK, |content| - n * CHUNK)
    ensures n + 1 < TotalChunks(|content|) ==> |ChunkOf(content, n)| == CHUNK
  {
  }

  /** The acknowledged bodies, put together, are the start of the file, or fall
      short of it when a read came up short. */
  lemma {:induction false} BodiesArePrefix(acks: seq<Ack>, content: string, server: Server, framed: bool)
    requires |acks| <= TotalChunks(|content|)
    requires AllAcked(acks, content, server, framed)
    ensures if AllWhole(acks, content) then Bodies(acks) == content[..Reach(content, |acks|)]
            else |Bodies(acks)| < Reach(content, |acks|)
  {
    hide Success, StatusOr0, Answer, Framed, Framing, Reach, ChunkOf;
    if acks == [] {
      assert Reach(content, 0) == 0 by { NoReach(content); }
    } else {
      var n := |acks| - 1;
      var before := acks[..n];
      forall i | 0 <= i < n
        ensures Acked(before, i, content, server, framed)
      {
        assert Acked(acks, i, content, server, framed);
      }
      BodiesArePrefix(before, content, server, framed);
      assert Acked(acks, n, content, server, framed);
      ChunkAfterReach(content, n);
      AllWholeNext(acks, content);
    }
  }

  lemma NoReach(content: string)
    ensures Reach(content, 0) == 0
  {
  }

  lemma NoneWhole(content: string)
    ensures AllWhole([], content)
  {
  }

  lemma WholeSoFar(acks: seq<Ack>, ack: Ack, content: string)
    ensures AllWhole(acks, content) && ack.body == ChunkOf(content, |acks|) ==> AllWhole(acks + [ack], content)
  {
    hide ChunkOf;
  }

  lemma AllWholeNext(acks: seq<Ack>, content: string)
    requires acks != []
    ensures var n := |acks| - 1;
            AllWhole(acks, content) <==> AllWhole(acks[..n], content) && acks[n].body == ChunkOf(content, n)
  {
    hide ChunkOf;
    var n := |acks| - 1;
    assert forall i :: 0 <= i < n ==> acks[..n][i] == acks[i];
  }

  lemma AllReached(content: string, n: nat)
    ensures n >= TotalChunks(|content|) ==> Reach(content, n) == |content|
    ensures n < TotalChunks(|content|) && content != "" ==> Reach(content, n) < |content|
  {
  }

  lemma NoneAcked(content: string, server: Server, framed: bool)
    ensures AllAcked([], content, server, framed)
  {
  }

  lemma AckWeaker(a: Ack, i: nat, content: string, server: Server, framed: bool, less: bool)
    requires AckOf(a, i, content, server, framed) && (less ==> framed)
    ensures AckOf(a, i, content, server, less)
  {
  }

  lemma AckedLonger(acks: seq<Ack>, ack: Ack, content: string, server: Server, framed: bool)
    requires AllAcked(acks, content, server, framed)
    requires AckOf(ack, |acks|, content, server, framed)
    ensures AllAcked(acks + [ack], content, server, framed)
  {
    hide Success, StatusOr0, Answer, ChunkOf;
    assert Acked(acks + [ack], |acks|, content, server, framed);
    forall i | 0 <= i < |acks|
      ensures Acked(acks + [ack], i, content, server, framed)
    {
      assert Acked(acks, i, content, server, framed);
    }
  }

  lemma ClampedSlice(content: string, offset: nat)
    requires offset <= |content|
    ensures Slice(content, offset, Clamp(content, offset, CHUNK)) == Slice(content, offset, CHUNK)
    ensures Clamp(content, offset, CHUNK) == |Slice(content, offset, CHUNK)|
  {
  }

  // ---- the thread's work on one file ----

  datatype Fate = SkippedDark | Uploaded | Kept

  /** What the thread has done to the outside: the requests, the failures, the
      sleep it asked for, the clock, and the rate that chunks are paced at. */
  datatype World = World(requests: seq<Request>, disk: nat, wire: nat, asked: nat, now: int, rate: int)

  /** The upload of one file: its target, whether the replies can be told apart,
      where it begins, the rate of its first chunk, and whether a rate was
      measured before. */
  datatype Job = Job(content: string, host: string, port: string, server: Server, framed: bool, start: World,
                     first: int, probed: bool)

  /** Why a chunk is not acknowledged: the client was never set up, the disk or
      the network failed, or what was received is no success. */
  predicate Refused(initialized: bool, before: World, after: World) {
    || !initialized || before.disk < after.disk || before.wire < after.wire
    || (after.requests != [] && !Success(StatusIn(after.requests[|after.requests| - 1].got)))
  }

  class UploadThread {
    const cfg: Config
    const client: Client
    const rate: AdaptiveRate
    const ring: DarkSkip.Ring
    const flag: RunFlag

    ghost predicate Valid()
      reads this, client, client.chan, client.wire, rate, ring, ring.slots
    {
      && client.Valid() && rate.Valid() && ring.Valid()
      && rate.maxRate == cfg.rateLimit
    }

    /** The server's replies can be told apart, and nothing of an earlier one is
        left over. */
    ghost predicate Clean(server: Server)
      reads client, client.chan
    {
      Framing(server) && client.Drained()
    }

    ghost function Seen(): World
      reads client, client.wire, client.disk, client.clock, rate
    {
      World(client.wire.requests, client.disk.failures, client.wire.failures, client.clock.asked, client.clock.now,
            if cfg.adaptive then rate.currentRate as int else Max(cfg.rateLimit as int, 0))
    }

    constructor (cfg: Config, client: Client, rate: AdaptiveRate, ring: DarkSkip.Ring, flag: RunFlag)
      requires client.Valid() && rate.Valid() && ring.Valid() && rate.maxRate == cfg.rateLimit
      ensures Valid()
      ensures this.cfg == cfg && this.client == client && this.rate == rate && this.ring == ring && this.flag == flag
    {
      this.cfg, this.client, this.rate, this.ring, this.flag := cfg, client, rate, ring, flag;
    }

    /** file_uploader.c:384-415: sleeps after a chunk as the rate asks, and closes
        the probe when it has seen enough or the file ends.  probedBytes and
        probeUs add up over the chunks of an open probe; `paced` is the rate
        slept for, 0 for none. */
    method AfterChunk(chunkLen: int64, elapsed: nat, last: bool, probeDone: bool, probedBytes: int64, probeUs: nat)
      returns (done: bool, bytes: int64, us: nat, ghost paced: nat)
      requires Valid()
      requires 0 <= chunkLen as int <= CHUNK && 0 <= probedBytes as int
      requires cfg.adaptive && !probeDone ==> probedBytes as int + chunkLen as int <= CHUNK
      requires cfg.adaptive && probeDone ==> rate.initialized
      modifies rate, client.clock
      ensures Valid() && (old(rate.initialized) ==> rate.initialized)
      ensures client.clock.now >= old(client.clock.now) + SleepFor(chunkLen as int, elapsed, paced)
      ensures PacedWithin(paced, old(rate.initialized))
      // an open probe adds up, and feeds the average once, when it closes
      ensures var probing := cfg.adaptive && !probeDone;
              var closes := probing && (bytes as int >= PROBE_BYTES || last);
              && bytes as int == probedBytes as int + (if probing then chunkLen as int else 0)
              && us == probeUs + (if probing then elapsed else 0)
              && done == (probeDone || closes) && (closes ==> rate.initialized)
              && rate.samples == old(rate.samples) + if closes then [Raw(bytes as int, us)] else []
      ensures probeDone ==> rate.currentRate == old(rate.currentRate)
      // the measured rate, twice that for a repeated probe, nothing for a first one, or the fixed limit
      ensures paced == if !cfg.adaptive then Max(cfg.rateLimit as int, 0)
                       else if probeDone then old(rate.currentRate) as int
                       else if !old(rate.initialized) then 0
                       else if cfg.rateLimit > 0 then Min(2 * old(rate.currentRate) as int, cfg.rateLimit as int)
                       else 2 * old(rate.currentRate) as int
      // exactly the sleep for that rate, and without any limit a short pause
      ensures client.clock.asked == old(client.clock.asked)
                + if !cfg.adaptive && cfg.rateLimit <= 0 then 100000 else SleepFor(chunkLen as int, elapsed, paced)
    {
      hide RateFor;
      done, bytes, us, paced := probeDone, probedBytes, probeUs, 0;
      var sleep: uint32 := 100000;
      if cfg.adaptive {
        if rate.initialized {
          RateBounded(rate.emaBps as int, rate.targetPct as int, rate.maxRate as int);
          if rate.maxRate > 0 {
            CapObeyed(rate.targetPct as int, rate.maxRate as int);
          }
        }
        if !probeDone {
          sleep := 0;
          bytes, us := bytes + chunkLen, us + elapsed;
          if rate.initialized {
            var probeRate := rate.currentRate * 2;
            if rate.maxRate > 0 && probeRate > rate.maxRate {
              probeRate := rate.maxRate;
            }
            sleep := Pace(chunkLen, elapsed, probeRate);
            paced := probeRate as int;
          }
          if bytes as int >= PROBE_BYTES || last {
            var _ := rate.Update(bytes, us);
            done := true;
          }
        } else {
          sleep := Pace(chunkLen, elapsed, rate.currentRate);
          paced := rate.currentRate as int;
        }
      } else if cfg.rateLimit > 0 {
        sleep := Pace(chunkLen, elapsed, cfg.rateLimit);
        paced := cfg.rateLimit as int;
      }
      client.clock.Sleep(sleep as int);
    }

    /** The rate of the first chunk of a file under an adaptive rate: twice the
        measured one, within the cap, and free when none was measured. */
    ghost function FirstRate(probed: bool, rate: int): int {
      if !probed then 0 else if cfg.rateLimit > 0 then Min(2 * rate, cfg.rateLimit as int) else 2 * rate
    }

    ghost function FirstOf(): int
      reads rate
    {
      if cfg.adaptive then FirstRate(rate.initialized, rate.currentRate as int) else Max(cfg.rateLimit as int, 0)
    }

    /** A limit is configured that the thread obeys. */
    ghost predicate Limited() {
      if cfg.adaptive then cfg.rateLimit as int >= MIN_RATE_KBPS else cfg.rateLimit > 0
    }

    /** The limit holds for a chunk, except that an adaptive thread does not pace
        the first chunk it ever probes with. */
    ghost predicate PacedWithin(paced: nat, probed: bool) {
      Limited() && (cfg.adaptive ==> probed) ==> 0 < paced <= cfg.rateLimit as int
    }

    /** file_uploader.c:366-375: posts one chunk and takes the time. */
    method PostOne(content: string, idx: nat, host: string, port: string, server: Server)
      returns (ok: bool, elapsed: nat, ghost ack: Ack)
      requires client.Valid() && idx * CHUNK <= |content|
      modifies client, client.clock`now, client.wire, client.disk, client.chan
      ensures client.Valid() && (old(Clean(server)) ==> Clean(server))
      ensures client.chan == old(client.chan) || client.chan == null || fresh(client.chan)
      ensures client.clock.now >= old(client.clock.now) + elapsed
      ensures ok ==> AckOf(ack, idx, content, server, old(Clean(server)))
      ensures old(client.wire.requests) <= client.wire.requests
      ensures old(client.disk.failures) <= client.disk.failures && old(client.wire.failures) <= client.wire.failures
      ensures client.initialized == old(client.initialized)
      ensures !ok ==> Refused(client.initialized, old(Seen()), Seen())
      ensures ok && client.disk.failures == old(client.disk.failures) ==> ack.body == ChunkOf(content, idx)
      ensures ok ==> ack.at >= |old(client.wire.requests)| && SentAs(ack, client.wire.requests, host, port)
    {
      hide Framed, StatusIn, Success, Answer, Ran, TakeAll, Reusable;
      var offset := idx * CHUNK;
      ClampedSlice(content, offset);
      var t0 := client.clock.Read();
      var ret, status, outcome;
      ghost var body, rs;
      ret, status, outcome, body, rs :=
        client.PostChunk(host, port, content, offset, CHUNK, [server(idx).0, server(idx).1]);
      var t1 := client.clock.Read();
      ok, elapsed := ret == 0, t1 - t0;
      ghost var sent := |client.wire.requests|;
      ack := Ack(if sent > 0 then sent - 1 else 0, body, rs);
    }

    /** One acknowledged chunk: what it adds to the outside. */
    ghost predicate Advance(job: Job, before: World, after: World, i: nat, ack: Ack, time: Paced,
                            framed: bool, probed: bool)
    {
      // it went out in a request of its own, whole unless a read failed, and was acknowledged
      && before.requests <= after.requests && before.disk <= after.disk && before.wire <= after.wire
      && ack.at >= |before.requests| && SentAs(ack, after.requests, job.host, job.port)
      && AckOf(ack, i, job.content, job.server, framed)
      && (before.disk == after.disk ==> ack.body == ChunkOf(job.content, i))
      // and the sleep after it was that for its rate
      && time.bytes == |ChunkOf(job.content, i)|
      && time.rate == (if i == 0 then job.first else before.rate) && (i > 0 ==> after.rate == before.rate)
      && time.slept >= SleepFor(time.bytes, time.elapsed, time.rate) && PacedWithin(time.rate, probed)
      && after.asked == before.asked + AskedFor(time, cfg.adaptive)
      && after.now >= before.now + time.elapsed + time.slept
    }

    /** file_uploader.c:341-416, one turn after the check of g_running. */
    method OneChunk(ghost job: Job, content: string, idx: nat, host: string, port: string, server: Server, last: bool,
                    probeDone: bool, probedBytes: int64, probeUs: nat)
      returns (ok: bool, done: bool, bytes: int64, us: nat, ghost ack: Ack, ghost time: Paced)
      requires Valid() && idx < TotalChunks(|content|) && last == (idx + 1 == TotalChunks(|content|))
      requires job.content == content && job.host == host && job.port == port && job.server == server
      requires idx == 0 ==> job.first == FirstOf()
      requires 0 <= probedBytes as int && (cfg.adaptive && !probeDone ==> probedBytes == 0)
      requires if cfg.adaptive then probeDone == (idx > 0) && (probeDone ==> rate.initialized) else !probeDone
      modifies client, client.clock, client.wire, client.disk, client.chan, rate
      ensures Valid() && (old(Clean(server)) ==> Clean(server))
      ensures client.chan == old(client.chan) || client.chan == null || fresh(client.chan)
      ensures client.initialized == old(client.initialized)
      ensures old(rate.initialized) ==> rate.initialized
      ensures if ok then Advance(job, old(Seen()), Seen(), idx, ack, time, old(Clean(server)), old(rate.initialized))
              else Refused(client.initialized, old(Seen()), Seen()) && Unacked(old(Seen()), Seen())
      // whole or last, the first chunk completes the probe
      ensures ok ==> done == cfg.adaptive && (cfg.adaptive ==> rate.initialized)
      ensures ok && (!cfg.adaptive || probeDone) ==> bytes == probedBytes && us == probeUs
      ensures bytes as int >= 0
    {
      hide AckOf, SentAs, Framing, ChunkOf, TotalChunks, PacedWithin, SleepFor, Refused;
      done, bytes, us, time := probeDone, probedBytes, probeUs, Paced(0, 0, 0, 0);
      ChunkLength(content, idx);
      var elapsed;
      ok, elapsed, ack := PostOne(content, idx, host, port, server);
      if !ok {
        return;
      }
      var chunkLen := Min(CHUNK, |content| - idx * CHUNK) as int64;
      ghost var before := client.clock.now;
      ghost var paced;
      done, bytes, us, paced := AfterChunk(chunkLen, elapsed, last, probeDone, probedBytes, probeUs);
      time := Paced(chunkLen as int, elapsed, paced, client.clock.now - before);
    }

    /** A chunk that is not acknowledged changes no rate and asks for no sleep. */
    predicate Unacked(before: World, after: World) {
      && before.requests <= after.requests && before.disk <= after.disk && before.wire <= after.wire
      && after.asked == before.asked && after.now >= before.now && after.rate == before.rate
    }

    /** file_uploader.c:322-416: the chunk loop. */
    method UploadChunks(content: string, host: string, port: string, server: Server)
      returns (fate: Fate, ghost acks: seq<Ack>, ghost ran: seq<bool>, ghost posted: seq<bool>, ghost times: seq<Paced>,
               ghost job: Job)
      requires Valid()
      modifies client, client.clock, client.wire, client.disk, client.chan, rate, flag
      ensures Valid() && !fate.SkippedDark?
      ensures job == Job(content, host, port, server, old(Clean(server)), old(Seen()), old(FirstOf()),
                         old(rate.initialized))
      ensures Progress(job, acks, times, Seen()) && (old(Clean(server)) ==> Clean(server))
      ensures LoopOutcome(TotalChunks(|content|), ran, posted, fate, |acks|)
      ensures flag.answers == old(flag.answers) + ran && (flag.running ==> AllTrue(ran))
      ensures fate.Kept? ==> Refused(client.initialized, old(Seen()), Seen())
      ensures cfg.adaptive && acks != [] ==> rate.initialized
    {
      hide Valid, Seen, FirstOf, Clean, Advance, Unacked, Progress, Refused, TotalChunks, LoopOutcome, AllGood, AllTrue;
      ChunkCount(|content|);
      acks, ran, posted, times := [], [], [], [];
      var total := (|content| + CHUNK - 1) / CHUNK;
      if total < 1 {
        total := 1;
      }
      var idx := 0;
      var probedBytes, probeUs, probeDone := 0, 0, false;
      job := Job(content, host, port, server, Clean(server), Seen(), FirstOf(), rate.initialized);
      NoProgress(job);
      NoTurns();
      while idx < total
        invariant Valid() && idx <= total == TotalChunks(|content|)
        invariant client.chan == old(client.chan) || client.chan == null || fresh(client.chan)
        invariant client.initialized == old(client.initialized)
        invariant |acks| == idx && AllGood(ran, posted, idx) && flag.answers == old(flag.answers) + ran
        invariant Progress(job, acks, times, Seen()) && (job.framed ==> Clean(server))
        invariant if cfg.adaptive then probeDone == (idx > 0) && (idx > 0 ==> rate.initialized) else !probeDone
        invariant probedBytes as int >= 0 && (!probeDone ==> probedBytes == 0)
        invariant idx == 0 ==> FirstOf() == job.first && rate.initialized == job.probed
      {
        LoopTurn(total, ran, posted, idx);
        var go := flag.Check();
        ran := ran + [go];
        if !go {
          return Uploaded, acks, ran, posted, times, job;
        }
        ghost var before, framed, probed := Seen(), Clean(server), rate.initialized;
        var ok;
        ghost var ack, time;
        ok, probeDone, probedBytes, probeUs, ack, time :=
          OneChunk(job, content, idx, host, port, server, idx + 1 == total, probeDone, probedBytes, probeUs);
        posted := posted + [ok];
        if !ok {
          NoneMade(job, acks, times, before, Seen(), client.initialized);
          return Kept, acks, ran, posted, times, job;
        }
        ProgressMade(job, acks, ack, times, time, before, Seen(), framed, probed);
        acks, times := acks + [ack], times + [time];
        idx := idx + 1;
      }
      LoopTurn(total, ran, posted, idx);
      fate := Uploaded;
    }

    /** How far the upload of a file has come: what was acknowledged went over the
        wire, whole unless a read failed, and the sleeps in between were those for
        the rates, which are the probe's for the first chunk and then the measured
        or configured one. */
    ghost predicate Progress(job: Job, acks: seq<Ack>, times: seq<Paced>, w: World) {
      && |acks| == |times| && job.start.requests <= w.requests
      && job.start.disk <= w.disk && job.start.wire <= w.wire
      && AllAcked(acks, job.content, job.server, job.framed)
      && OnWire(acks, w.requests, |job.start.requests|, job.host, job.port)
      && (w.disk == job.start.disk ==> AllWhole(acks, job.content))
      && Timed(times, job.content, job.probed)
      && Rates(times, job.first, w.rate)
      && w.asked == job.start.asked + Asked(times, cfg.adaptive)
      && Time(times) <= w.now - job.start.now
    }

    lemma NoProgress(job: Job)
      ensures Progress(job, [], [], job.start)
    {
      NothingTimed(job.content, job.probed);
      NoneAcked(job.content, job.server, job.framed);
      NoneOnWire(job.start.requests, |job.start.requests|, job.host, job.port);
      NoneWhole(job.content);
      NoRates(cfg.adaptive);
    }

    lemma NoneMade(job: Job, acks: seq<Ack>, times: seq<Paced>, before: World, after: World, initialized: bool)
      requires Progress(job, acks, times, before)
      requires Unacked(before, after) && Refused(initialized, before, after)
      ensures Progress(job, acks, times, after) && Refused(initialized, job.start, after)
    {
      hide OnWire, AllAcked, AllWhole, Timed, Rates, Asked, Time, Success, StatusIn;
      WireGrows(acks, before.requests, after.requests, |job.start.requests|, job.host, job.port);
    }

    lemma ProgressMade(job: Job, acks: seq<Ack>, ack: Ack, times: seq<Paced>, time: Paced,
                       before: World, after: World, framed: bool, probed: bool)
      requires Progress(job, acks, times, before)
      requires Advance(job, before, after, |acks|, ack, time, framed, probed)
      requires job.framed ==> framed
      requires if acks == [] then probed == job.probed else cfg.adaptive ==> probed
      ensures Progress(job, acks + [ack], times + [time], after)
    {
      hide AckOf, SentAs, OnWire, AllAcked, AllWhole, Timed, Rates, SleepFor, PacedWithin, ChunkOf, Time;
      hide Asked, AskedFor;
      AckWeaker(ack, |acks|, job.content, job.server, framed, job.framed);
      AckedLonger(acks, ack, job.content, job.server, job.framed);
      OnWireLonger(acks, ack, before.requests, after.requests, |job.start.requests|, job.host, job.port);
      WholeSoFar(acks, ack, job.content);
      TimedLonger(times, time, job.content, job.probed, probed);
      RatesNext(times, time, job.first, before.rate, after.rate, cfg.adaptive);
    }

    /** Every acknowledged chunk was paced, within the limit where that holds. */
    ghost predicate Timed(times: seq<Paced>, content: string, probed: bool) {
      forall i :: 0 <= i < |times| ==>
        && times[i].bytes == |ChunkOf(content, i)|
        && times[i].slept >= SleepFor(times[i].bytes, times[i].elapsed, times[i].rate)
        && PacedWithin(times[i].rate, probed || i > 0)
    }

    /** file_uploader.c:298-301: the test that spares a dark recording the upload. */
    method LooksDark(file: File) returns (dark: bool)
      requires Valid()
      ensures dark <==>
                && cfg.darkSkip && file.chunkStart > 0
                && DarkSkip.Verdict(DarkSkip.Last(ring.history, DarkSkip.SLOTS), file.chunkStart, file.mtime, cfg.dark)
    {
      dark := false;
      if cfg.darkSkip && file.chunkStart > 0 {
        dark := ring.RangeIsDark(file.chunkStart, file.mtime, cfg.dark);
      }
    }

    /** file_uploader.c:298-427 for one file found by the scan.  `ran` and `posted` record
        what each check of g_running and each post answered, and `times` how long
        each acknowledged chunk took. */
    method ProcessFile(file: File, host: string, port: string, server: Server)
      returns (fate: Fate, ghost acks: seq<Ack>, ghost ran: seq<bool>, ghost posted: seq<bool>, ghost times: seq<Paced>)
      requires Valid()
      requires |file.content| >= MIN_FILE_SIZE
      modifies client, client.clock, client.wire, client.disk, client.chan, rate, flag
      ensures Valid()
      ensures fate.SkippedDark? <==>
                && cfg.darkSkip && file.chunkStart > 0
                && DarkSkip.Verdict(DarkSkip.Last(ring.history, DarkSkip.SLOTS), file.chunkStart, file.mtime, cfg.dark)
      ensures !fate.SkippedDark? ==> LoopOutcome(TotalChunks(|file.content|), ran, posted, fate, |acks|)
      ensures AllAcked(acks, file.content, server, old(Clean(server))) && (old(Clean(server)) ==> Clean(server))
      ensures OnWire(acks, client.wire.requests, |old(client.wire.requests)|, host, port)
      ensures client.disk.failures == old(client.disk.failures) ==> AllWhole(acks, file.content)
      ensures flag.answers == old(flag.answers) + ran
      ensures flag.running ==> AllTrue(ran)
      ensures fate.Kept? ==> Refused(client.initialized, old(Seen()), Seen())
      ensures fate.Uploaded? && flag.running && AllWhole(acks, file.content) ==> Bodies(acks) == file.content
      // under a limit, the chunks take their time; the first probe of all is free
      ensures Timed(times, file.content, old(rate.initialized))
      ensures var free := if cfg.adaptive && !old(rate.initialized) && times != [] then 1 else 0;
              Limited() ==>
                Bytes(times[free..]) * MICROS
                  <= cfg.rateLimit as int * 1024 * (client.clock.now - old(client.clock.now) + |times|)
      // after the probe, the measured rate bounds them as well
      ensures cfg.adaptive && |times| > 1 ==>
                && rate.initialized && rate.currentRate > 0
                && Bytes(times[1..]) * MICROS
                   <= rate.currentRate as int * 1024 * (client.clock.now - old(client.clock.now) + |times|)
      // and no more sleep is asked for than the rates need
      ensures client.clock.asked == old(client.clock.asked) + Asked(times, cfg.adaptive)
    {
      hide Valid, FirstOf, AckOf, AllAcked, SentAs, OnWire, AllWhole, Clean, LoopOutcome, Timed, Time, Bodies, Bytes;
      hide Refused, Rates, Asked;
      fate, acks, ran, posted, times := SkippedDark, [], [], [], [];
      ghost var job := Job(file.content, host, port, server, Clean(server), Seen(), FirstOf(), rate.initialized);
      NoProgress(job);
      var dark := LooksDark(file);
      if !dark {
        fate, acks, ran, posted, times, job := UploadChunks(file.content, host, port, server);
        if fate.Uploaded? {
          DeletedAfterFullAcknowledgement(file.content, server, job.framed, acks, ran, posted);
        }
      }
      if Limited() {
        PacedFile(times, file.content, job.probed, client.clock.now - old(client.clock.now));
      }
      if cfg.adaptive && |times| > 1 {
        MeasuredIsPositive();
        MeasuredFile(times, file.content, job.probed, job.first, rate.currentRate as int,
                     client.clock.now - old(client.clock.now));
      }
    }

    lemma MeasuredIsPositive()
      requires Valid() && rate.initialized
      ensures rate.currentRate > 0
    {
      hide RateFor;
      RateBounded(rate.emaBps as int, rate.targetPct as int, rate.maxRate as int);
    }

    lemma TailAtRate(times: seq<Paced>, content: string, probed: bool, first: int, rest: nat)
      requires |times| > 1 && rest > 0 && Timed(times, content, probed) && Rates(times, first, rest)
      ensures forall c :: c in times[1..] ==> 0 < c.rate <= rest && c.slept >= SleepFor(c.bytes, c.elapsed, c.rate)
    {
      hide SleepFor, ChunkOf, PacedWithin;
      forall c | c in times[1..]
        ensures 0 < c.rate <= rest && c.slept >= SleepFor(c.bytes, c.elapsed, c.rate)
      {
        var i :| 0 <= i < |times[1..]| && times[1..][i] == c;
        assert times[1 + i] == c;
      }
    }

    /** The chunks after the first go at the measured rate. */
    lemma MeasuredFile(times: seq<Paced>, content: string, probed: bool, first: int, rest: nat, spent: nat)
      requires |times| > 1 && rest > 0 && Time(times) <= spent
      requires Timed(times, content, probed) && Rates(times, first, rest)
      ensures Bytes(times[1..]) * MICROS <= rest * 1024 * (spent + |times|)
    {
      hide SleepFor, Bytes, Time, Timed, Rates;
      var limit := rest * 1024;
      TailAtRate(times, content, probed, first, rest);
      ThroughputBound(times[1..], rest);
      LessTime(times, 1);
      Scale(limit, Time(times[1..]) + |times[1..]|, limit, spent + |times|);
    }

    lemma NothingTimed(content: string, probed: bool)
      ensures Timed([], content, probed) && Time([]) == 0
    {
    }

    lemma TimedLonger(times: seq<Paced>, time: Paced, content: string, probed: bool, now: bool)
      requires Timed(times, content, probed)
      requires time.bytes == |ChunkOf(content, |times|)|
      requires time.slept >= SleepFor(time.bytes, time.elapsed, time.rate) && PacedWithin(time.rate, now)
      requires if times == [] then now == probed else cfg.adaptive ==> now
      ensures Timed(times + [time], content, probed)
      ensures Time(times + [time]) == Time(times) + time.elapsed + time.slept
    {
      hide SleepFor, ChunkOf;
      assert (times + [time])[..|times|] == times;
    }

    lemma PacedTail(times: seq<Paced>, content: string, probed: bool, free: nat)
      requires Limited() && Timed(times, content, probed) && free <= |times|
      requires cfg.adaptive && !probed ==> free > 0
      ensures forall c :: c in times[free..] ==>
                0 < c.rate <= cfg.rateLimit as int && c.slept >= SleepFor(c.bytes, c.elapsed, c.rate)
    {
      hide SleepFor, ChunkOf;
      forall c | c in times[free..]
        ensures 0 < c.rate <= cfg.rateLimit as int && c.slept >= SleepFor(c.bytes, c.elapsed, c.rate)
      {
        var i :| 0 <= i < |times[free..]| && times[free..][i] == c;
        assert times[free + i] == c;
      }
    }

    lemma PacedFile(times: seq<Paced>, content: string, probed: bool, spent: nat)
      requires Limited() && Timed(times, content, probed) && Time(times) <= spent
      ensures var free := if cfg.adaptive && !probed && times != [] then 1 else 0;
              Bytes(times[free..]) * MICROS <= cfg.rateLimit as int * 1024 * (spent + |times|)
    {
      hide SleepFor, Bytes, Time, Timed;
      var free := if cfg.adaptive && !probed && times != [] then 1 else 0;
      var limit := cfg.rateLimit as int * 1024;
      if times == [] {
        NoBytes(times[free..]);
      } else {
        PacedTail(times, content, probed, free);
        ThroughputBound(times[free..], cfg.rateLimit as int);
        LessTime(times, free);
        Scale(limit, Time(times[free..]) + |times[free..]|, limit, spent + |times|);
      }
    }
  }

  /** The rates that the chunks of a file were paced at. */
  predicate Rates(times: seq<Paced>, first: int, rest: int) {
    forall i :: 0 <= i < |times| ==> times[i].rate == if i == 0 then first else rest
  }

  /** The sleep asked for after a chunk: what its rate needs; without any rate a
      pause, except in a first probe. */
  function AskedFor(time: Paced, adaptive: bool): nat {
    if time.rate == 0 && !adaptive then 100000 else SleepFor(time.bytes, time.elapsed, time.rate)
  }

  function Asked(times: seq<Paced>, adaptive: bool): nat {
    if times == [] then 0 else Asked(times[..|times| - 1], adaptive) + AskedFor(times[|times| - 1], adaptive)
  }

  lemma NoRates(adaptive: bool)
    ensures forall first, rest :: Rates([], first, rest)
    ensures Asked([], adaptive) == 0
  {
  }

  lemma RatesNext(times: seq<Paced>, time: Paced, first: int, before: int, rest: int, adaptive: bool)
    requires Rates(times, first, before) && (times != [] ==> time.rate == before == rest)
    requires times == [] ==> time.rate == first
    ensures Rates(times + [time], first, rest)
    ensures Asked(times + [time], adaptive) == Asked(times, adaptive) + AskedFor(time, adaptive)
  {
    hide AskedFor;
    assert (times + [time])[..|times|] == times;
  }

  lemma NoBytes(times: seq<Paced>)
    requires times == []
    ensures Bytes(times) == 0
  {
  }

  lemma {:induction false} LessTime(times: seq<Paced>, k: nat)
    requires k <= |times|
    ensures Time(times[k..]) <= Time(times)
  {
    if k < |times| {
      var n := |times| - 1;
      LessTime(times[..n], k);
      assert times[k..][..|times[k..]| - 1] == times[..n][k..];
    }
  }

  /** What the chunk loop's checks and posts lead to: `n` chunks acknowledged,
      and the fate of the file. */
  predicate LoopOutcome(total: nat, ran: seq<bool>, posted: seq<bool>, fate: Fate, n: nat) {
    && n <= |posted| && n <= |ran| && n <= total
    && (forall i :: 0 <= i < n ==> ran[i] && posted[i])
    && match fate
       case Uploaded => |posted| == n && if n == total then |ran| == n else |ran| == n + 1 && !ran[n]
       case Kept => n < total && |ran| == |posted| == n + 1 && ran[n] && !posted[n]
       case SkippedDark => false
  }

  predicate AllTrue(ran: seq<bool>) {
    forall i :: 0 <= i < |ran| ==> ran[i]
  }

  predicate AllGood(ran: seq<bool>, posted: seq<bool>, n: nat) {
    |ran| == |posted| == n && forall i :: 0 <= i < n ==> ran[i] && posted[i]
  }

  lemma NoTurns()
    ensures AllGood([], [], 0)
  {
  }

  /** The three ways on from n good turns. */
  lemma LoopTurn(total: nat, ran: seq<bool>, posted: seq<bool>, n: nat)
    requires AllGood(ran, posted, n) && n <= total
    ensures AllTrue(ran) && AllTrue(ran + [true])
    ensures AllGood(ran + [true], posted + [true], n + 1)
    ensures n == total ==> LoopOutcome(total, ran, posted, Uploaded, n)
    ensures n < total ==> LoopOutcome(total, ran + [false], posted, Uploaded, n)
                          && LoopOutcome(total, ran + [true], posted + [false], Kept, n)
  {
  }

  /** A file is deleted as uploaded after all its chunks if and only if every
      check found the thread running. */
  lemma DeletedComplete(total: nat, ran: seq<bool>, posted: seq<bool>, n: nat)
    requires LoopOutcome(total, ran, posted, Uploaded, n)
    ensures n == total <==> AllTrue(ran)
  {
    if n < total {
      assert !ran[n];
    }
  }

  const OK_REPLY := "HTTP/1.1 200 OK\r\n\r\n"

  /** Shutdown after the first of several chunks leaves the loop with the file
      counted as uploaded, though only that chunk was acknowledged: any file of
      more than one chunk can be deleted with the rest unsent. */
  lemma ShutdownDeletesPartialUpload(content: string, host: string, port: string)
    returns (server: Server, acks: seq<Ack>, requests: seq<Request>)
    requires |content| > CHUNK
    ensures Framing(server) && AllAcked(acks, content, server, true) && |acks| == 1
    ensures OnWire(acks, requests, 0, host, port)
    ensures LoopOutcome(TotalChunks(|content|), [true, false], [true], Uploaded, |acks|)
    ensures Bodies(acks) == content[..CHUNK] != content
  {
    hide StatusOr0, Answer, Framed, TakeAll;
    server := i => (OK_REPLY, OK_REPLY);
    var rs := OkAnswer();
    var ack := Ack(0, ChunkOf(content, 0), rs);
    acks, requests := [ack], [Request(0, host, port, ack.body, TakeAll(rs).got)];
    NoneAcked(content, server, true);
    assert [] + [ack] == [ack] && [ack][..0] == [];
    AckedLonger([], ack, content, server, true);
    assert Bodies([ack]) == Bodies([]) + ack.body;
  }

  /** A bare 200 answers a chunk. */
  lemma OkAnswer() returns (rs: seq<Read>)
    ensures Framed(OK_REPLY) && Answer(rs, OK_REPLY) && StatusOr0(rs) == 200
  {
    hide UpToNul, Find, CiFind, CiAt, Atoi, TakeAll, Ran, ParseHead;
    NulFreeIsWhole(OK_REPLY);
    NoLengthInOk();
    rs := ReadThenEof(OK_REPLY);
    StatusInOk();
  }

  /** A reply without a length, read in one piece up to the end of the stream. */
  lemma ReadThenEof(reply: string) returns (rs: seq<Read>)
    requires 0 < |reply| < BUFFER - 1 && CiFind(UpToNul(reply), CONTENT_LENGTH).None?
    ensures Ran(rs) && TakeAll(rs).got == reply
  {
    hide ParseHead;
    NoLengthSeen(reply);
    rs := [Data(reply), Eof];
    assert rs[..1] == [Data(reply)] && rs[..0] == [] && rs[..1][..0] == [];
    assert IDLE.got + reply == reply;
    assert TakeAll(rs[..1]) == Take(IDLE, Data(reply));
  }

  lemma NoLengthSeen(got: string)
    requires CiFind(UpToNul(got), CONTENT_LENGTH).None?
    ensures ParseHead(got).Head? ==> ParseHead(got).contentLen == -1
  {
  }

  lemma NoLengthInOk()
    ensures CiFind(OK_REPLY, CONTENT_LENGTH).None?
  {
    hide CiFind;
    forall i: nat | i <= |OK_REPLY|
      ensures !CiAt(OK_REPLY, CONTENT_LENGTH, i)
    {
      if i + |CONTENT_LENGTH| <= |OK_REPLY| {
        assert Lower(OK_REPLY[i + 0]) != Lower(CONTENT_LENGTH[0]);
      }
    }
  }

  lemma StatusInOk()
    ensures Find(OK_REPLY, " ") == Some(8) && Atoi(OK_REPLY[9..]) == 200
  {
    hide Find, Atoi;
    assert At(OK_REPLY, " ", 8);
    forall i: nat | i < 8
      ensures !At(OK_REPLY, " ", i)
    {
      assert OK_REPLY[i..i + 1][0] != ' ';
    }
    ThreeDigits(OK_REPLY[9..]);
  }

  lemma ThreeDigits(t: string)
    requires |t| > 3 && t[0] == '2' && t[1] == '0' && t[2] == '0' && t[3] == ' '
    ensures Atoi(t) == 200
  {
    assert LeadingSpaces(t) == 0 && t[0..] == t;
    assert t[1..][1..] == t[2..] && t[2..][1..] == t[3..];
    assert Digits(t[3..], 200) == 200;
    assert Digits(t[2..], 20) == 200;
    assert Digits(t[1..], 2) == 200;
  }

  /** What is deleted as uploaded was acknowledged in full, byte for byte and in
      order, if and only if the thread was never told to stop and no read of the
      file came up short. */
  lemma DeletedAfterFullAcknowledgement(content: string, server: Server, framed: bool, acks: seq<Ack>,
                                        ran: seq<bool>, posted: seq<bool>)
    requires content != ""
    requires LoopOutcome(TotalChunks(|content|), ran, posted, Uploaded, |acks|)
    requires AllAcked(acks, content, server, framed)
    ensures Bodies(acks) == content <==> AllTrue(ran) && AllWhole(acks, content)
  {
    hide Acked, Framing, TotalChunks;
    DeletedComplete(TotalChunks(|content|), ran, posted, |acks|);
    BodiesArePrefix(acks, content, server, framed);
    AllReached(content, |acks|);
  }
}
