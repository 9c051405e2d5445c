/** Pacing of uploads: the adaptive rate and the sleep after a chunk, in the
    integer widths of the source.  Arithmetic on a newtype is checked to stay in
    range, so a method that verifies does not overflow. */
module UploadRate {
  import opened CLib

  newtype int32 = x: int | -0x8000_0000 <= x < 0x8000_0000
  newtype int64 = x: int | -0x8000_0000_0000_0000 <= x < 0x8000_0000_0000_0000
  newtype uint32 = x: int | 0 <= x < 0x1_0000_0000

  const CHUNK: nat := 1024 * 1024
  const PROBE_BYTES: nat := 512 * 1024
  const MIN_RATE_KBPS: nat := 10
  const MICROS: nat := 1000000

  /** No probe measures more than this: one chunk in one microsecond. */
  const RAW_MAX: nat := CHUNK * MICROS

  // ---- the rate as arithmetic on integers ----

  function Raw(bytes: nat, us: nat): nat {
    if us > 0 then bytes * MICROS / us else 0
  }

  function Smooth(ema: int, raw: int): int {
    (3 * raw + 7 * ema) / 10
  }

  function RateFor(ema: nat, targetPct: nat, maxRate: int): int {
    var rate := ema * targetPct / 100 / 1024;
    Max(if maxRate > 0 && rate > maxRate then maxRate else rate, MIN_RATE_KBPS)
  }

  lemma RawBounded(bytes: nat, us: nat)
    requires bytes <= CHUNK
    ensures Raw(bytes, us) <= RAW_MAX
  {
    if us > 0 {
      DivAtMost(bytes * MICROS, us);
    }
  }

  // ---- what the rate means ----

  /** The throughput is the whole number of bytes in a second. */
  lemma RawMeans(bytes: nat, us: nat)
    ensures us == 0 ==> Raw(bytes, us) == 0
    ensures us > 0 ==> Raw(bytes, us) * us <= bytes * MICROS < (Raw(bytes, us) + 1) * us
  {
    if us > 0 {
      Quotient(bytes * MICROS, us);
    }
  }

  /** The rate is the share of the average in KiB per second, rounded down, and
      no more than the cap, but at least 10. */
  lemma RateMeans(ema: nat, targetPct: nat, maxRate: int, share: nat)
    requires share * 102400 <= ema * targetPct < (share + 1) * 102400
    ensures RateFor(ema, targetPct, maxRate)
         == if maxRate > 0 && share > maxRate then Max(maxRate, 10) else Max(share, 10)
  {
    TwoDivisions(ema * targetPct, share);
  }

  lemma TwoDivisions(a: nat, q: nat)
    requires q * 102400 <= a < (q + 1) * 102400
    ensures a / 100 / 1024 == q
  {
  }

  function Smoothed(ema: int, raw: int, n: nat): int {
    if n == 0 then ema else Smooth(Smoothed(ema, raw, n - 1), raw)
  }

  function Pow(b: nat, n: nat): nat {
    if n == 0 then 1 else b * Pow(b, n - 1)
  }

  /** After n measurements of the same, higher throughput, 7^n / 10^n of the
      distance to it is left, up to the three that rounding can add. */
  lemma {:induction false} SmoothConverges(ema: int, raw: int, n: nat)
    requires ema <= raw
    ensures var left := raw - Smoothed(ema, raw, n);
            && Pow(7, n) * (raw - ema) <= Pow(10, n) * left
            && Pow(10, n) * (left - 3) <= Pow(7, n) * (raw - ema - 3)
            && left >= 0
  {
    if n > 0 {
      SmoothConverges(ema, raw, n - 1);
      var before, left := raw - Smoothed(ema, raw, n - 1), raw - Smoothed(ema, raw, n);
      SmoothStep(Smoothed(ema, raw, n - 1), raw);
      GapAtLeast(Pow(7, n - 1), Pow(10, n - 1), raw - ema, before, left);
      GapAtMost(Pow(7, n - 1), Pow(10, n - 1), raw - ema - 3, before - 3, left - 3);
    }
  }

  lemma SmoothStep(ema: int, raw: int)
    requires ema <= raw
    ensures var left := raw - Smooth(ema, raw);
            7 * (raw - ema) <= 10 * left && 10 * (left - 3) <= 7 * (raw - ema - 3) && left >= 0
  {
  }

  lemma AtMost(p: nat, x: int, y: int)
    requires x <= y
    ensures p * x <= p * y
  {
    assert p * (y - x) >= 0;
  }

  lemma GapAtLeast(b: nat, a: nat, g0: int, g: int, g': int)
    requires b * g0 <= a * g && 7 * g <= 10 * g'
    ensures (7 * b) * g0 <= (10 * a) * g'
  {
    AtMost(a, 7 * g, 10 * g');
    assert a * (7 * g) == 7 * (a * g) && a * (10 * g') == (10 * a) * g' && (7 * b) * g0 == 7 * (b * g0);
  }

  lemma GapAtMost(b: nat, a: nat, h0: int, h: int, h': int)
    requires a * h <= b * h0 && 10 * h' <= 7 * h
    ensures (10 * a) * h' <= (7 * b) * h0
  {
    AtMost(a, 10 * h', 7 * h);
    assert a * (7 * h) == 7 * (a * h) && a * (10 * h') == (10 * a) * h' && (7 * b) * h0 == 7 * (b * h0);
  }

  lemma AtLeastOnce(q: nat, b: nat)
    requires b > 0
    ensures q <= q * b
  {
  }

  lemma Quotient(a: nat, b: nat)
    requires b > 0
    ensures a / b * b <= a < (a / b + 1) * b
  {
  }

  lemma DivAtMost(a: nat, b: nat)
    requires b > 0
    ensures a / b <= a
  {
    var q := a / b;
    Quotient(a, b);
    AtLeastOnce(q, b);
  }

  /** Smoothing stays between the old average and the sample. */
  lemma SmoothBetween(ema: int, raw: int)
    ensures Min(ema, raw) <= Smooth(ema, raw) <= Max(ema, raw)
  {
  }

  lemma ProductBounded(ema: nat, targetPct: nat)
    requires ema <= RAW_MAX && targetPct <= 100
    ensures ema * targetPct <= RAW_MAX * 100
  {
    Scale(ema, targetPct, RAW_MAX, 100);
  }

  lemma RateBounded(ema: nat, targetPct: nat, maxRate: int)
    requires ema <= RAW_MAX && targetPct <= 100
    ensures MIN_RATE_KBPS <= RateFor(ema, targetPct, maxRate) <= 1024000000
  {
    ProductBounded(ema, targetPct);
  }

  /** The cap that is configured is obeyed, whatever was measured, if and only
      if it is not below the minimum rate. */
  lemma CapObeyed(targetPct: nat, maxRate: int)
    requires maxRate > 0
    ensures (forall ema: nat :: RateFor(ema, targetPct, maxRate) <= maxRate) <==> maxRate >= MIN_RATE_KBPS
  {
    assert RateFor(0, targetPct, maxRate) >= MIN_RATE_KBPS;
  }

  // ---- adaptive_rate_t ----

  class AdaptiveRate {
    const targetPct: int32
    const maxRate: int32
    var emaBps: int64
    var currentRate: int32
    var initialized: bool
    ghost var samples: seq<nat>    // the raw throughputs measured so far

    /** The average lies within the range of what was measured. */
    ghost predicate Valid()
      reads this
    {
      && 0 < targetPct <= 100
      && 0 <= emaBps as int <= RAW_MAX
      && (initialized <==> samples != [])
      && (initialized ==>
            && InRange(samples, emaBps as int)
            && currentRate as int == RateFor(emaBps as int, targetPct as int, maxRate as int))
    }

    /** adaptive_rate_init. */
    constructor (targetPct: int32, maxRate: int32)
      ensures Valid() && !initialized && samples == [] && this.maxRate == maxRate
      ensures this.targetPct == if 0 < targetPct <= 100 then targetPct else 80
    {
      this.targetPct := if targetPct > 0 && targetPct <= 100 then targetPct else 80;
      this.maxRate := maxRate;
      emaBps, currentRate, initialized, samples := 0, 0, false, [];
    }

    /** adaptive_rate_update. */
    method Update(probedBytes: int64, probeUs: nat) returns (rate: int32)
      requires Valid() && 0 <= probedBytes as int <= CHUNK
      modifies this
      ensures Valid() && initialized && rate == currentRate
      ensures var raw := Raw(probedBytes as int, probeUs);
              && samples == old(samples) + [raw]
              && emaBps as int == if old(initialized) then Smooth(old(emaBps) as int, raw) else raw
    {
      hide RateFor, Raw, Smooth, InRange;
      var raw := Measure(probedBytes, probeUs);
      ghost var before := samples;
      samples := samples + [raw as int];
      if !initialized {
        emaBps := raw;
        initialized := true;
        RangeStarts(before, raw as int);
      } else {
        SmoothBetween(emaBps as int, raw as int);
        RangeGrows(before, emaBps as int, raw as int);
        emaBps := Blend(raw, emaBps);
      }
      rate := Limit(emaBps);
      currentRate := rate;
    }

    static method Measure(probedBytes: int64, probeUs: nat) returns (raw: int64)
      requires 0 <= probedBytes as int <= CHUNK
      ensures raw as int == Raw(probedBytes as int, probeUs) <= RAW_MAX
    {
      RawBounded(probedBytes as int, probeUs);
      var scaled: int64 := probedBytes * 1000000;
      raw := if probeUs > 0 then (scaled as int / probeUs) as int64 else 0;
    }

    static method Blend(raw: int64, ema: int64) returns (r: int64)
      requires 0 <= raw as int <= RAW_MAX && 0 <= ema as int <= RAW_MAX
      ensures r as int == Smooth(ema as int, raw as int)
    {
      r := (3 * raw + 7 * ema) / 10;
    }

    /** file_uploader.c:52-56: the share of the average, capped and floored. */
    method Limit(ema: int64) returns (rate: int32)
      requires 0 < targetPct <= 100 && 0 <= ema as int <= RAW_MAX
      ensures rate as int == RateFor(ema as int, targetPct as int, maxRate as int)
    {
      ProductBounded(ema as int, targetPct as int);
      var share: int64 := ema * targetPct as int64;
      rate := (share / 100 / 1024) as int32;
      if maxRate > 0 && rate > maxRate {
        rate := maxRate;
      }
      if rate < 10 {
        rate := 10;
      }
    }
  }

  /** Some sample is at most v, and some is at least v. */
  ghost predicate InRange(samples: seq<nat>, v: int) {
    && (exists i :: 0 <= i < |samples| && samples[i] <= v)
    && (exists i :: 0 <= i < |samples| && v <= samples[i])
  }

  lemma RangeStarts(samples: seq<nat>, raw: nat)
    ensures InRange(samples + [raw], raw)
  {
    assert (samples + [raw])[|samples|] == raw;
  }

  lemma RangeGrows(samples: seq<nat>, ema: int, raw: nat)
    requires InRange(samples, ema)
    ensures InRange(samples + [raw], Smooth(ema, raw))
  {
    var s, e := samples + [raw], Smooth(ema, raw);
    SmoothBetween(ema, raw);
    var lo :| 0 <= lo < |samples| && samples[lo] <= ema;
    var hi :| 0 <= hi < |samples| && ema <= samples[hi];
    assert s[lo] == samples[lo] && s[hi] == samples[hi] && s[|samples|] == raw;
  }

  // ---- pacing ----

  /** The sleep that stretches a chunk to the given rate. */
  function SleepFor(bytes: int, elapsed: nat, rate: int): nat {
    if rate <= 0 || bytes <= 0 then 0
    else Max(bytes * MICROS / (rate * 1024) - elapsed, 0)
  }

  /** A sleep ends with the first whole microsecond after which one more would
      take the chunk below the rate. */
  lemma SleepMeans(bytes: nat, elapsed: nat, rate: nat)
    requires bytes > 0 && rate > 0
    ensures var sleep := SleepFor(bytes, elapsed, rate);
            && bytes * MICROS < (elapsed + sleep + 1) * (rate * 1024)
            && (sleep > 0 ==> (elapsed + sleep) * (rate * 1024) <= bytes * MICROS)
  {
    var q := bytes * MICROS / (rate * 1024);
    Quotient(bytes * MICROS, rate * 1024);
    if q <= elapsed {
      Scale(q + 1, rate * 1024, elapsed + 1, rate * 1024);
    }
  }

  lemma ExpectedBounded(bytes: nat, rate: nat)
    requires bytes <= CHUNK && rate > 0
    ensures bytes * MICROS / (rate * 1024) <= CHUNK * MICROS / 1024
  {
    var q := bytes * MICROS / (rate * 1024);
    Quotient(bytes * MICROS, rate * 1024);
    Regroup(q, rate);
    AtLeastOnce(q, rate);
  }

  lemma Regroup(q: nat, rate: nat)
    ensures q * (rate * 1024) == (q * rate) * 1024
  {
  }

  /** pace_chunk up to the usleep: what it asks usleep for, 0 when it does not
      sleep.  The argument always fits the unsigned 32 bits it is cast to. */
  method Pace(bytes: int64, elapsed: nat, rate: int32) returns (sleep: uint32)
    requires bytes as int <= CHUNK
    ensures sleep as int == SleepFor(bytes as int, elapsed, rate as int)
  {
    if rate <= 0 || bytes <= 0 {
      return 0;
    }
    ExpectedBounded(bytes as int, rate as int);
    var expected: int64 := bytes * 1000000 / (rate as int64 * 1024);
    if elapsed < expected as int {
      return (expected as int - elapsed) as uint32;
    }
    return 0;
  }

  /** One paced chunk takes at least its share of time, to one microsecond. */
  lemma PacedChunk(bytes: nat, elapsed: nat, rate: nat, limit: nat, time: nat)
    requires 0 < rate <= limit
    requires time >= elapsed + SleepFor(bytes, elapsed, rate)
    ensures bytes * MICROS <= limit * 1024 * (time + 1)
  {
    var q := bytes * MICROS / (rate * 1024);
    if bytes > 0 {
      Quotient(bytes * MICROS, rate * 1024);
      Scale(rate * 1024, q + 1, limit * 1024, time + 1);
    }
  }

  lemma Scale(a: nat, b: nat, c: nat, d: nat)
    requires a <= c && b <= d
    ensures b * a <= c * d
  {
    assert b * a <= d * a;
    assert a * d <= c * d;
  }

  datatype Paced = Paced(bytes: nat, elapsed: nat, rate: nat, slept: nat)

  function Bytes(chunks: seq<Paced>): nat {
    if chunks == [] then 0 else Bytes(chunks[..|chunks| - 1]) + chunks[|chunks| - 1].bytes
  }

  function Time(chunks: seq<Paced>): nat {
    if chunks == [] then 0 else Time(chunks[..|chunks| - 1]) + chunks[|chunks| - 1].elapsed + chunks[|chunks| - 1].slept
  }

  /** Throughput over any run of chunks paced at rates up to `limit`. */
  lemma {:induction false} ThroughputBound(chunks: seq<Paced>, limit: nat)
    requires forall c :: c in chunks ==> 0 < c.rate <= limit && c.slept >= SleepFor(c.bytes, c.elapsed, c.rate)
    ensures Bytes(chunks) * MICROS <= limit * 1024 * (Time(chunks) + |chunks|)
  {
    if chunks != [] {
      var n := |chunks| - 1;
      var c := chunks[n];
      ThroughputBound(chunks[..n], limit);
      PacedChunk(c.bytes, c.elapsed, c.rate, limit, c.elapsed + c.slept);
      Distribute(limit * 1024, Time(chunks[..n]) + n, c.elapsed + c.slept + 1);
    }
  }

  lemma Distribute(k: nat, a: nat, b: nat)
    ensures k * (a + b) == k * a + k * b
  {
  }
}
