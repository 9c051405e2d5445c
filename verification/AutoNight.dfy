/** The autonight controller: an exponential average of the exposure value,
    day/night and IR-LED switching with hysteresis, the IR health check and the
    exposure report.  One call of Tick is one successful poll. */
module AutoNight {
  import opened CLib

  datatype Mode = Day | Night

  datatype Config = Config(
    nightThresh: int, dayThresh: int,
    ledThresh: int, ledOff: bool,   // AUTONIGHT_IR_LED_OFF inverts the LED
    interval: int,
    graceTicks: nat,                // 0 when the interval is 0
    reportSeconds: int)

  /** Range of exposure values: since the last report, and "since start". */
  datatype Stats = Stats(samples: nat, winMin: int, winMax: int, allMin: int, allMax: int, reportIn: int)

  datatype State = State(
    avg: Option<int>,
    isp: Mode,                      // what the ISP runs; a set takes effect
    ispNight: Option<bool>,
    lastNight: Option<bool>,
    leds: bool,
    checkPending: bool, checkTicksLeft: int, faultReported: bool,
    stats: Stats)

  /** What one tick does to the outside. */
  datatype Effects = Effects(modeSet: bool, encoderSet: Option<bool>, ledSet: bool, verdict: Option<bool>)

  function Start(isp: Mode, cfg: Config): State {
    State(None, isp, None, None, false, false, 0, false, Stats(0, 0, 0, 0, 0, cfg.reportSeconds))
  }

  // ---- one tick, part by part ----

  /** Arithmetic shift right by two rounds down, as division by 4 does here. */
  function Ema(avg: int, ev: int): int {
    avg - avg / 4 + ev / 4
  }

  function NextAvg(avg: Option<int>, ev: int): int {
    if avg.None? then ev else Ema(avg.value, ev)
  }

  /** C division, which rounds toward zero. */
  function LedOffLevel(cfg: Config): int {
    if cfg.ledThresh >= 0 then cfg.ledThresh * 3 / 4 else -(-cfg.ledThresh * 3 / 4)
  }

  function NextMode(isp: Mode, avg: int, cfg: Config): Mode {
    if avg > cfg.nightThresh then Night
    else if avg < cfg.dayThresh then Day
    else isp
  }

  predicate WantLeds(leds: bool, avg: int, cfg: Config) {
    (if leds then avg > LedOffLevel(cfg) else avg > cfg.ledThresh) != cfg.ledOff
  }

  function Observe(st: Stats, ev: int): Stats {
    if st.samples == 0 then Stats(1, ev, ev, ev, ev, st.reportIn)
    else Stats(st.samples + 1,
               Min(ev, st.winMin), Max(ev, st.winMax),
               Min(ev, st.allMin), Max(ev, st.allMax),
               st.reportIn)
  }

  function Report(st: Stats, oldAvg: int, cfg: Config): Stats {
    var left := st.reportIn - cfg.interval;
    if left <= 0 then Stats(0, oldAvg, oldAvg, st.allMin, st.allMax, cfg.reportSeconds)
    else st.(reportIn := left)
  }

  function Value(avg: Option<int>): int {
    if avg.None? then 0 else avg.value
  }

  function Tick(s: State, ev: int, cfg: Config): State {
    var stats := Report(Observe(s.stats, ev), Value(s.avg), cfg);
    var avg := NextAvg(s.avg, ev);
    var isp := NextMode(s.isp, avg, cfg);
    var known := if s.ispNight.None? then Some(s.isp == Night) else s.ispNight;
    var night := if isp != s.isp then Some(isp == Night) else known;
    var leds := WantLeds(s.leds, avg, cfg);
    var on := leds && !s.leds;
    var pending := on || (s.checkPending && !(s.leds && !leds));
    var ticks := if on then cfg.graceTicks else s.checkTicksLeft;
    if pending && cfg.graceTicks > 0 then
      if ticks - 1 <= 0 then
        State(Some(avg), isp, night, night, leds, false, ticks - 1, avg > cfg.dayThresh, stats)
      else
        State(Some(avg), isp, night, night, leds, true, ticks - 1, s.faultReported, stats)
    else
      State(Some(avg), isp, night, night, leds, pending, ticks, s.faultReported, stats)
  }

  function EffectsOf(s: State, ev: int, cfg: Config): Effects {
    var next := Tick(s, ev, cfg);
    var on := next.leds && !s.leds;
    var pending := on || (s.checkPending && !(s.leds && !next.leds));
    Effects(next.isp != s.isp,
            if next.ispNight != s.lastNight then next.ispNight else None,
            next.leds != s.leds,
            if pending && !next.checkPending then Some(next.avg.value > cfg.dayThresh) else None)
  }

  /** What the parts of the loop body leave, put together, is one tick. */
  lemma TickInParts(s: State, ev: int, cfg: Config, n: State, e: Effects, pending: bool, ticks: int)
    requires n.stats == Report(Observe(s.stats, ev), Value(s.avg), cfg)
    requires n.avg == Some(NextAvg(s.avg, ev))
    requires n.isp == NextMode(s.isp, n.avg.value, cfg) && e.modeSet == (n.isp != s.isp)
    requires n.ispNight == if e.modeSet || s.ispNight.None? then Some(n.isp == Night) else s.ispNight
    requires n.lastNight == n.ispNight && e.encoderSet == if n.ispNight != s.lastNight then n.ispNight else None
    requires n.leds == WantLeds(s.leds, n.avg.value, cfg) && e.ledSet == (n.leds != s.leds)
    requires pending == ((n.leds && !s.leds) || (s.checkPending && !(s.leds && !n.leds)))
    requires ticks == if n.leds && !s.leds then cfg.graceTicks else s.checkTicksLeft
    requires var due := pending && cfg.graceTicks > 0;
             && n.checkTicksLeft == ticks - (if due then 1 else 0)
             && n.checkPending == (pending && !(due && n.checkTicksLeft <= 0))
             && e.verdict == (if due && n.checkTicksLeft <= 0 then Some(n.avg.value > cfg.dayThresh) else None)
             && n.faultReported == if e.verdict.Some? then e.verdict.value else s.faultReported
    ensures n == Tick(s, ev, cfg) && e == EffectsOf(s, ev, cfg)
  {
    hide Report, Observe, NextAvg, NextMode, WantLeds;
  }

  // ---- the thread's own variables ----

  class Controller {
    const cfg: Config
    var avgExp: int
    var avgInit: bool
    var isp: Mode
    var ispNight: Option<bool>
    var lastNight: Option<bool>
    var leds: bool
    var checkPending: bool
    var checkTicksLeft: int
    var faultReported: bool
    var stats: Stats

    ghost function Abs(): State
      reads this
    {
      State(if avgInit then Some(avgExp) else None, isp, ispNight, lastNight, leds,
            checkPending, checkTicksLeft, faultReported, stats)
    }

    ghost predicate Valid()
      reads this
    {
      avgInit || avgExp == 0
    }

    constructor (cfg: Config, isp: Mode)
      ensures Valid() && Abs() == Start(isp, cfg) && this.cfg == cfg
    {
      this.cfg := cfg;
      avgExp, avgInit := 0, false;
      this.isp, ispNight, lastNight := isp, None, None;
      leds, checkPending, checkTicksLeft, faultReported := false, false, 0, false;
      stats := Stats(0, 0, 0, 0, 0, cfg.reportSeconds);
    }

    /** The loop body after a successful read of the exposure. */
    method Poll(ev: int) returns (effects: Effects)
      requires Valid()
      modifies this
      ensures Valid()
      ensures Abs() == Tick(old(Abs()), ev, cfg)
      ensures effects == EffectsOf(old(Abs()), ev, cfg)
    {
      hide Tick, EffectsOf, Report, Observe, NextAvg, NextMode, WantLeds;
      ghost var before := Abs();
      UpdateStats(ev);
      Average(ev);
      var modeSet, encoderSet := SwitchMode();
      var ledSet := SwitchLeds();
      ghost var pending, ticks := checkPending, checkTicksLeft;
      var verdict := CheckLeds();
      effects := Effects(modeSet, encoderSet, ledSet, verdict);
      TickInParts(before, ev, cfg, Abs(), effects, pending, ticks);
    }

    method Average(ev: int)
      requires Valid()
      modifies this`avgExp, this`avgInit
      ensures avgInit && avgExp == NextAvg(old(Abs()).avg, ev)
    {
      if !avgInit {
        avgExp, avgInit := ev, true;
      } else {
        avgExp := avgExp - avgExp / 4 + ev / 4;
      }
    }

    method UpdateStats(ev: int)
      requires Valid()
      modifies this`stats
      ensures stats == Report(Observe(old(stats), ev), Value(old(Abs()).avg), cfg)
    {
      if stats.samples == 0 {
        stats := stats.(winMin := ev, allMin := ev, winMax := ev, allMax := ev);
      } else {
        if ev < stats.winMin { stats := stats.(winMin := ev); }
        if ev > stats.winMax { stats := stats.(winMax := ev); }
        if ev < stats.allMin { stats := stats.(allMin := ev); }
        if ev > stats.allMax { stats := stats.(allMax := ev); }
      }
      stats := stats.(samples := stats.samples + 1);
      stats := stats.(reportIn := stats.reportIn - cfg.interval);
      if stats.reportIn <= 0 {
        stats := stats.(reportIn := cfg.reportSeconds, winMin := avgExp, winMax := avgExp, samples := 0);
      }
    }

    /** imp-common.c:1448-1505. */
    method SwitchMode() returns (modeSet: bool, encoderSet: Option<bool>)
      modifies this`isp, this`ispNight, this`lastNight
      ensures isp == NextMode(old(isp), avgExp, cfg)
      ensures modeSet == (isp != old(isp))
      ensures ispNight == if modeSet then Some(isp == Night)
                          else if old(ispNight).None? then Some(isp == Night) else old(ispNight)
      ensures lastNight == ispNight
      ensures encoderSet == if ispNight != old(lastNight) then ispNight else None
    {
      var pmode := isp;
      modeSet, encoderSet := false, None;
      if ispNight.None? {
        ispNight := Some(pmode == Night);
      }
      if avgExp > cfg.nightThresh {
        if pmode != Night {
          isp, ispNight, modeSet := Night, Some(true), true;
        }
      } else if avgExp < cfg.dayThresh {
        if pmode != Day {
          isp, ispNight, modeSet := Day, Some(false), true;
        }
      }
      if ispNight != lastNight {
        encoderSet := ispNight;
        lastNight := ispNight;
      }
    }

    /** imp-common.c:1510-1531. */
    method SwitchLeds() returns (ledSet: bool)
      modifies this`leds, this`checkPending, this`checkTicksLeft
      ensures leds == WantLeds(old(leds), avgExp, cfg)
      ensures ledSet == (leds != old(leds))
      ensures checkPending == ((leds && !old(leds)) || (old(checkPending) && !(old(leds) && !leds)))
      ensures checkTicksLeft == if leds && !old(leds) then cfg.graceTicks else old(checkTicksLeft)
    {
      var wantOn := if leds then avgExp > LedOffLevel(cfg) else avgExp > cfg.ledThresh;
      if cfg.ledOff {
        wantOn := !wantOn;
      }
      ledSet := false;
      if wantOn && !leds {
        leds, checkPending, checkTicksLeft, ledSet := true, true, cfg.graceTicks, true;
      } else if !wantOn && leds {
        leds, checkPending, ledSet := false, false, true;
      }
    }

    /** imp-common.c:1551-1574: Some(true) publishes a fault, Some(false) clears it. */
    method CheckLeds() returns (verdict: Option<bool>)
      modifies this`checkPending, this`checkTicksLeft, this`faultReported
      ensures var due := old(checkPending) && cfg.graceTicks > 0;
              && checkTicksLeft == old(checkTicksLeft) - (if due then 1 else 0)
              && checkPending == (old(checkPending) && !(due && checkTicksLeft <= 0))
              && verdict == (if due && checkTicksLeft <= 0 then Some(avgExp > cfg.dayThresh) else None)
              && faultReported == if verdict.Some? then verdict.value else old(faultReported)
    {
      verdict := None;
      if checkPending && cfg.graceTicks > 0 {
        checkTicksLeft := checkTicksLeft - 1;
        if checkTicksLeft <= 0 {
          checkPending := false;
          if avgExp > cfg.dayThresh {
            if !faultReported {
              faultReported := true;
            }
            verdict := Some(true);
          } else {
            faultReported := false;
            verdict := Some(false);
          }
        }
      }
    }
  }

  // ---- runs ----

  function Run(s: State, evs: seq<int>, cfg: Config): State {
    if evs == [] then s else Tick(Run(s, evs[..|evs| - 1], cfg), evs[|evs| - 1], cfg)
  }

  function Distance(a: int, b: int): nat {
    if a < b then b - a else a - b
  }

  /** How far the average travels in one tick; the first sample starts it. */
  function Travel(s: State, ev: int): nat {
    if s.avg.None? then 0 else Distance(s.avg.value, NextAvg(s.avg, ev))
  }

  function Count(b: bool): nat {
    if b then 1 else 0
  }

  /** Totals over a run. */
  datatype Totals = Totals(travel: nat, modeSets: nat, encoderSets: nat, ledSets: nat, ledOns: nat, verdicts: nat)

  function Sum(s: State, evs: seq<int>, cfg: Config): Totals {
    if evs == [] then Totals(0, 0, 0, 0, 0, 0)
    else
      var last := |evs| - 1;
      var t := Sum(s, evs[..last], cfg);
      var at := Run(s, evs[..last], cfg);
      var e := EffectsOf(at, evs[last], cfg);
      Totals(t.travel + Travel(at, evs[last]),
             t.modeSets + Count(e.modeSet),
             t.encoderSets + Count(e.encoderSet.Some?),
             t.ledSets + Count(e.ledSet),
             t.ledOns + Count(e.ledSet && !at.leds),
             t.verdicts + Count(e.verdict.Some?))
  }

  /** The gap the average has to cross between two mode switches. */
  function ModeGap(cfg: Config): int {
    cfg.nightThresh - cfg.dayThresh + 2
  }

  function LedGap(cfg: Config): int {
    cfg.ledThresh + 1 - LedOffLevel(cfg)
  }

  /** How far the average has already come back from where the last switch was. */
  function Back(s: State, cfg: Config): int {
    if s.avg.None? then 0
    else if s.isp == Night then Max(0, cfg.nightThresh + 1 - s.avg.value)
    else Max(0, s.avg.value - (cfg.dayThresh - 1))
  }

  function LedBack(s: State, cfg: Config): int {
    if s.avg.None? then 0
    else if s.leds then Max(0, cfg.ledThresh + 1 - s.avg.value)
    else Max(0, s.avg.value - LedOffLevel(cfg))
  }

  /** What one tick pays for: travel covers the way back, and a switch the gap. */
  lemma TravelPays(s: State, ev: int, cfg: Config)
    requires s.avg.Some?
    ensures Tick(s, ev, cfg).avg.Some?
    ensures var next := Tick(s, ev, cfg);
            if next.isp != s.isp
            then Back(s, cfg) + Travel(s, ev) >= ModeGap(cfg) && Back(next, cfg) == 0
            else Back(s, cfg) + Travel(s, ev) >= Back(next, cfg)
    ensures var next := Tick(s, ev, cfg);
            !cfg.ledOff ==>
              if next.leds != s.leds
              then LedBack(s, cfg) + Travel(s, ev) >= LedGap(cfg) && LedBack(next, cfg) == 0
              else LedBack(s, cfg) + Travel(s, ev) >= LedBack(next, cfg)
  {
  }

  /** The potential argument over a whole run. */
  lemma {:induction false} TravelBound(isp: Mode, evs: seq<int>, cfg: Config)
    ensures var t, end := Sum(Start(isp, cfg), evs, cfg), Run(Start(isp, cfg), evs, cfg);
            && (evs != [] <==> end.avg.Some?)
            && (t.modeSets > 0 ==> t.travel >= (t.modeSets - 1) * ModeGap(cfg) + Back(end, cfg))
            && (!cfg.ledOff && t.ledSets > 0 ==> t.travel >= (t.ledSets - 1) * LedGap(cfg) + LedBack(end, cfg))
  {
    hide Tick, ModeGap, LedGap, Travel, Back, LedBack;
    if evs != [] {
      var s, last := Start(isp, cfg), |evs| - 1;
      var at, t := Run(s, evs[..last], cfg), Sum(s, evs[..last], cfg);
      TravelBound(isp, evs[..last], cfg);
      if last > 0 {
        TravelPays(at, evs[last], cfg);
        assert t.modeSets * ModeGap(cfg) == (t.modeSets - 1) * ModeGap(cfg) + ModeGap(cfg);
        assert t.ledSets * LedGap(cfg) == (t.ledSets - 1) * LedGap(cfg) + LedGap(cfg);
      } else {
        FirstTick(at, evs[last], cfg);
      }
    }
  }

  lemma FirstTick(s: State, ev: int, cfg: Config)
    requires s.avg.None?
    ensures var next := Tick(s, ev, cfg);
            && next.avg.Some?
            && (next.isp != s.isp ==> Back(next, cfg) == 0)
            && (!cfg.ledOff && next.leds != s.leds ==> LedBack(next, cfg) == 0)
  {
  }

  /** Once polled, the three records of the mode agree, and the encoder was set
      once at the start and then once for each switch. */
  lemma {:induction false} EncoderFollowsMode(isp: Mode, evs: seq<int>, cfg: Config)
    ensures var t, end := Sum(Start(isp, cfg), evs, cfg), Run(Start(isp, cfg), evs, cfg);
            && (evs != [] ==> end.ispNight == end.lastNight == Some(end.isp == Night))
            && t.modeSets <= t.encoderSets
            && t.encoderSets <= t.modeSets + 1
            && (evs != [] ==> t.encoderSets >= 1)
  {
    if evs != [] {
      EncoderFollowsMode(isp, evs[..|evs| - 1], cfg);
      assert |evs| == 1 ==> evs[..0] == [];
    }
  }

  /** Day/night switching is paid for by the light: k switches take the average
      at least k - 1 times across the gap between the thresholds, and reconfigure
      the encoder at most k + 1 times. */
  lemma SwitchingIsBounded(isp: Mode, evs: seq<int>, cfg: Config)
    ensures var t := Sum(Start(isp, cfg), evs, cfg);
            && (t.modeSets > 0 ==> t.travel >= (t.modeSets - 1) * (cfg.nightThresh - cfg.dayThresh + 2))
            && t.encoderSets <= t.modeSets + 1
  {
    TravelBound(isp, evs, cfg);
    EncoderFollowsMode(isp, evs, cfg);
  }

  /** The same for the IR LEDs, with the band from 3/4 of the threshold to the
      threshold. */
  ghost predicate LedsPaidFor(isp: Mode, evs: seq<int>, cfg: Config) {
    var t := Sum(Start(isp, cfg), evs, cfg);
    t.ledSets > 0 ==> t.travel >= (t.ledSets - 1) * (cfg.ledThresh + 1 - LedOffLevel(cfg))
  }

  /** LED switching is paid for in every run if and only if the LEDs are not
      inverted, or their threshold leaves no band to oscillate in. */
  lemma LedSwitchingIsBounded(cfg: Config)
    ensures (forall isp, evs :: LedsPaidFor(isp, evs, cfg)) <==> !cfg.ledOff || cfg.ledThresh <= 0
  {
    hide Sum;
    if !cfg.ledOff || cfg.ledThresh <= 0 {
      forall isp, evs
        ensures LedsPaidFor(isp, evs, cfg)
      {
        if !cfg.ledOff {
          TravelBound(isp, evs, cfg);
        } else {
          NoBand(isp, evs, cfg);
          NoGap(Sum(Start(isp, cfg), evs, cfg), cfg);
        }
      }
    } else {
      InvertedOscillates(Day, cfg.ledThresh, 2, cfg);
      assert !LedsPaidFor(Day, Constant(cfg.ledThresh, 2), cfg);
    }
  }

  lemma NoGap(t: Totals, cfg: Config)
    requires cfg.ledThresh <= 0 && (cfg.ledThresh == 0 && t.ledSets > 0 ==> t.travel >= t.ledSets - 1)
    ensures t.ledSets > 0 ==> t.travel >= (t.ledSets - 1) * (cfg.ledThresh + 1 - LedOffLevel(cfg))
  {
    if t.ledSets > 0 && cfg.ledThresh < 0 {
      NotPositive(t.ledSets - 1, cfg.ledThresh + 1 - LedOffLevel(cfg));
    }
  }

  lemma NotPositive(k: nat, gap: int)
    requires gap <= 0
    ensures k * gap <= 0
  {
  }

  /** At threshold 0, both levels of an inverted LED are 0: it follows the side
      the average is on. */
  lemma {:induction false} NoBand(isp: Mode, evs: seq<int>, cfg: Config)
    requires cfg.ledOff
    ensures var t, end := Sum(Start(isp, cfg), evs, cfg), Run(Start(isp, cfg), evs, cfg);
            && (evs != [] <==> end.avg.Some?)
            && (cfg.ledThresh == 0 && evs != [] ==> end.leds == (end.avg.value <= 0))
            && (cfg.ledThresh == 0 && t.ledSets > 0 ==> t.travel >= t.ledSets - 1)
            && (evs == [] ==> t.ledSets == 0)
  {
    hide Tick, Travel, EffectsOf;
    if evs != [] {
      var last := |evs| - 1;
      NoBand(isp, evs[..last], cfg);
      SideTick(Run(Start(isp, cfg), evs[..last], cfg), evs[last], cfg);
    }
  }

  lemma SideTick(s: State, ev: int, cfg: Config)
    requires cfg.ledOff
    ensures var next := Tick(s, ev, cfg);
            && next.avg.Some? && EffectsOf(s, ev, cfg).ledSet == (next.leds != s.leds)
            && (cfg.ledThresh == 0 ==> next.leds == (next.avg.value <= 0))
            && (cfg.ledThresh == 0 && s.avg.Some? && s.leds == (s.avg.value <= 0) && next.leds != s.leds
                ==> Travel(s, ev) >= 1)
  {
  }

  lemma InvertedTick(s: State, ev: int, cfg: Config)
    requires cfg.ledOff && LedOffLevel(cfg) < ev <= cfg.ledThresh
    requires s.avg == Some(ev) || s.avg.None?
    ensures Tick(s, ev, cfg).avg == Some(ev) && Travel(s, ev) == 0 && EffectsOf(s, ev, cfg).ledSet
  {
  }

  function Constant(ev: int, n: nat): seq<int> {
    seq(n, i => ev)
  }

  lemma ConstantNext(ev: int, n: nat)
    ensures Constant(ev, n + 1)[..n] == Constant(ev, n)
  {
  }

  /** In constant light inside the band an inverted LED toggles on every tick,
      though the average never moves. */
  lemma {:induction false} InvertedOscillates(isp: Mode, ev: int, n: nat, cfg: Config)
    requires cfg.ledOff && LedOffLevel(cfg) < ev <= cfg.ledThresh
    ensures var t, end := Sum(Start(isp, cfg), Constant(ev, n), cfg), Run(Start(isp, cfg), Constant(ev, n), cfg);
            t.ledSets == n && t.travel == 0 && end.avg == if n == 0 then None else Some(ev)
  {
    hide Tick, EffectsOf;
    if n > 0 {
      InvertedOscillates(isp, ev, n - 1, cfg);
      ConstantNext(ev, n - 1);
      InvertedTick(Run(Start(isp, cfg), Constant(ev, n - 1), cfg), ev, cfg);
    }
  }

  /** After every tick the LEDs are on above the threshold and off at or below
      3/4 of it; in between they stay as they are.  Inverted, each is the other
      way round. */
  lemma LedsFollow(s: State, ev: int, cfg: Config)
    requires cfg.ledThresh >= 0
    ensures var avg, leds := NextAvg(s.avg, ev), Tick(s, ev, cfg).leds;
            && (avg > cfg.ledThresh ==> leds == !cfg.ledOff)
            && (4 * avg <= 3 * cfg.ledThresh ==> leds == cfg.ledOff)
            && (3 * cfg.ledThresh < 4 * avg && avg <= cfg.ledThresh ==> leds == (s.leds != cfg.ledOff))
    ensures EffectsOf(s, ev, cfg).ledSet <==> Tick(s, ev, cfg).leds != s.leds
  {
  }

  // ---- the health check ----

  /** The LEDs are on after each of these ticks. */
  predicate StaysOn(s: State, evs: seq<int>, cfg: Config) {
    forall i :: 0 <= i <= |evs| ==> Run(s, evs[..i], cfg).leds
  }

  lemma GraceTick(s: State, ev: int, cfg: Config)
    requires cfg.graceTicks > 0 && s.leds && s.checkPending && Tick(s, ev, cfg).leds
    ensures var next, e := Tick(s, ev, cfg), EffectsOf(s, ev, cfg);
            && next.checkTicksLeft == s.checkTicksLeft - 1
            && next.checkPending == (s.checkTicksLeft > 1)
            && next.avg.Some?
            && e.verdict == (if s.checkTicksLeft > 1 then None else Some(next.avg.value > cfg.dayThresh))
            && (s.checkTicksLeft <= 1 ==> next.faultReported == (next.avg.value > cfg.dayThresh))
  {
  }

  lemma {:induction false} InGrace(s: State, evs: seq<int>, cfg: Config)
    requires cfg.graceTicks > 0 && s.leds && s.checkPending && StaysOn(s, evs, cfg)
    requires |evs| < s.checkTicksLeft
    ensures var end := Run(s, evs, cfg);
            && end.leds && end.checkPending && end.checkTicksLeft == s.checkTicksLeft - |evs|
            && Sum(s, evs, cfg).verdicts == 0
  {
    hide Tick, EffectsOf;
    assert evs[..|evs|] == evs;
    if evs != [] {
      var n := |evs| - 1;
      assert forall i :: 0 <= i <= n ==> evs[..n][..i] == evs[..i];
      InGrace(s, evs[..n], cfg);
      GraceTick(Run(s, evs[..n], cfg), evs[n], cfg);
    }
  }

  /** The LEDs go on: the check is armed, and is due at once if the grace is one
      tick. */
  lemma CheckArmed(s: State, ev: int, cfg: Config)
    requires cfg.graceTicks > 0 && !s.leds && Tick(s, ev, cfg).leds
    ensures var next, e := Tick(s, ev, cfg), EffectsOf(s, ev, cfg);
            && next.checkTicksLeft == cfg.graceTicks - 1 && next.checkPending == (cfg.graceTicks > 1)
            && next.avg.Some?
            && e.verdict == (if cfg.graceTicks > 1 then None else Some(next.avg.value > cfg.dayThresh))
            && (cfg.graceTicks == 1 ==> next.faultReported == (next.avg.value > cfg.dayThresh))
  {
  }

  /** The tick that turns the LEDs on is the first of the grace; at the last of
      them, and not before, there is a verdict if the LEDs stayed on: a fault
      exactly when the scene is still darker than the day threshold. */
  lemma VerdictAfterGrace(s: State, ev: int, evs: seq<int>, cfg: Config)
    requires !s.leds && Tick(s, ev, cfg).leds && cfg.graceTicks == |evs| + 1
    requires StaysOn(Tick(s, ev, cfg), evs, cfg)
    ensures var next := Tick(s, ev, cfg);
            var end := Run(next, evs, cfg);
            var last := if evs == [] then EffectsOf(s, ev, cfg)
                        else EffectsOf(Run(next, evs[..|evs| - 1], cfg), evs[|evs| - 1], cfg);
            && end.avg.Some? && last.verdict == Some(end.avg.value > cfg.dayThresh)
            && !end.checkPending && end.faultReported == (end.avg.value > cfg.dayThresh)
            && (evs != [] ==> EffectsOf(s, ev, cfg).verdict.None? && Sum(next, evs[..|evs| - 1], cfg).verdicts == 0)
  {
    hide Tick, EffectsOf;
    CheckArmed(s, ev, cfg);
    var next := Tick(s, ev, cfg);
    if evs != [] {
      var n := |evs| - 1;
      assert forall i :: 0 <= i <= n ==> evs[..n][..i] == evs[..i];
      assert evs[..0] == [] && evs[..n + 1] == evs;
      InGrace(next, evs[..n], cfg);
      GraceTick(Run(next, evs[..n], cfg), evs[n], cfg);
    }
  }

  /** One verdict on the illuminator for each time it was switched on, at most. */
  lemma {:induction false} OneVerdictPerOn(isp: Mode, evs: seq<int>, cfg: Config)
    ensures var t, end := Sum(Start(isp, cfg), evs, cfg), Run(Start(isp, cfg), evs, cfg);
            && t.verdicts + Count(end.checkPending) <= t.ledOns
            && (end.checkPending ==> end.leds && end.checkTicksLeft <= cfg.graceTicks)
            && (end.checkPending && cfg.graceTicks > 0 ==> end.checkTicksLeft > 0)
  {
    if evs != [] {
      OneVerdictPerOn(isp, evs[..|evs| - 1], cfg);
    }
  }

  // ---- the average ----

  /** One step stays between the average and the sample: no overshoot, and no
      overflow wherever both fit. */
  lemma EmaBetween(avg: int, ev: int)
    ensures Min(avg, ev) <= Ema(avg, ev) <= Max(avg, ev)
  {
  }

  lemma TickAverages(s: State, ev: int, cfg: Config)
    ensures Tick(s, ev, cfg).avg == Some(NextAvg(s.avg, ev))
  {
  }

  lemma {:induction false} AverageInRange(isp: Mode, evs: seq<int>, cfg: Config, lo: int, hi: int)
    requires forall i :: 0 <= i < |evs| ==> lo <= evs[i] <= hi
    requires evs != []
    ensures lo <= Value(Run(Start(isp, cfg), evs, cfg).avg) <= hi
    ensures Run(Start(isp, cfg), evs, cfg).avg.Some?
  {
    hide Tick, Ema;
    var last := |evs| - 1;
    TickAverages(Run(Start(isp, cfg), evs[..last], cfg), evs[last], cfg);
    if last == 0 {
      assert evs[..0] == [];
    } else {
      AverageInRange(isp, evs[..last], cfg, lo, hi);
      EmaBetween(Value(Run(Start(isp, cfg), evs[..last], cfg).avg), evs[last]);
    }
  }

  /** The average after n further samples of the same value. */
  function Settled(avg: int, c: int, n: nat): int {
    if n == 0 then avg else Ema(Settled(avg, c, n - 1), c)
  }

  lemma {:induction false} RunSettles(s: State, c: int, n: nat, cfg: Config)
    requires s.avg.Some?
    ensures Run(s, Constant(c, n), cfg).avg == Some(Settled(s.avg.value, c, n))
  {
    hide Tick;
    if n > 0 {
      RunSettles(s, c, n - 1, cfg);
      ConstantNext(c, n - 1);
      TickAverages(Run(s, Constant(c, n - 1), cfg), c, cfg);
    }
  }

  function Pow(b: nat, n: nat): nat {
    if n == 0 then 1 else b * Pow(b, n - 1)
  }

  lemma Contracts(avg: int, c: int)
    ensures 4 * (Distance(Ema(avg, c), c) - 3) <= 3 * (Distance(avg, c) - 3)
    ensures Distance(avg, c) > 3 ==> Distance(Ema(avg, c), c) < Distance(avg, c)
    ensures Distance(avg, c) <= 3 ==> Distance(Ema(avg, c), c) <= 3
  {
  }

  /** Under constant light the distance shrinks geometrically, up to the three
      that the shifts can drop. */
  lemma {:induction false} Geometric(avg: int, c: int, n: nat)
    ensures Pow(4, n) * (Distance(Settled(avg, c, n), c) - 3) <= Pow(3, n) * (Distance(avg, c) - 3)
  {
    if n > 0 {
      Geometric(avg, c, n - 1);
      Contracts(Settled(avg, c, n - 1), c);
      Chain(Pow(4, n - 1), Pow(3, n - 1), Distance(Settled(avg, c, n), c) - 3,
            Distance(Settled(avg, c, n - 1), c) - 3, Distance(avg, c) - 3);
    }
  }

  lemma Chain(p: nat, q: nat, x: int, y: int, z: int)
    requires 4 * x <= 3 * y
    requires p * y <= q * z
    ensures (4 * p) * x <= (3 * q) * z
  {
    calc {
      (4 * p) * x;
    ==
      p * (4 * x);
    <=
      p * (3 * y);
    ==
      3 * (p * y);
    <=
      3 * (q * z);
    ==
      (3 * q) * z;
    }
  }

  lemma {:induction false} SettlesWithin3(avg: int, c: int, n: nat)
    ensures n >= Distance(avg, c) ==> Distance(Settled(avg, c, n), c) <= 3
    ensures Distance(Settled(avg, c, n), c) <= Max(3, Distance(avg, c) - n)
  {
    if n > 0 {
      SettlesWithin3(avg, c, n - 1);
      Contracts(Settled(avg, c, n - 1), c);
    }
  }

  // ---- when constant light forces night ----

  lemma {:induction false} ClimbsTo(avg: int, c: int, n: nat)
    requires avg <= c / 4 * 4
    ensures Min(c / 4 * 4, avg + n) <= Settled(avg, c, n) <= c / 4 * 4
  {
    if n > 0 {
      ClimbsTo(avg, c, n - 1);
    }
  }

  lemma {:induction false} StaysBelow(avg: int, c: int, n: nat, level: int)
    requires avg <= level && c / 4 * 4 <= level
    ensures Settled(avg, c, n) <= level
  {
    if n > 0 {
      StaysBelow(avg, c, n - 1, level);
    }
  }

  lemma ModeOfTick(s: State, ev: int, cfg: Config)
    ensures Tick(s, ev, cfg).isp == NextMode(s.isp, Value(Tick(s, ev, cfg).avg), cfg)
  {
  }

  lemma {:induction false} StaysDay(s: State, c: int, n: nat, cfg: Config)
    requires s.isp == Day && s.avg.Some? && s.avg.value <= cfg.nightThresh
    requires c / 4 * 4 <= cfg.nightThresh
    ensures Run(s, Constant(c, n), cfg).isp == Day
    ensures Run(s, Constant(c, n), cfg).avg == Some(Settled(s.avg.value, c, n))
  {
    hide Tick, Settled;
    RunSettles(s, c, n, cfg);
    if n > 0 {
      StaysDay(s, c, n - 1, cfg);
      ConstantNext(c, n - 1);
      StaysBelow(s.avg.value, c, n, cfg.nightThresh);
      ModeOfTick(Run(s, Constant(c, n - 1), cfg), c, cfg);
    }
  }

  /** From day, a constant exposure c forces night if and only if c, rounded
      down to a multiple of four, exceeds the threshold. */
  lemma NightForced(s: State, c: int, cfg: Config)
    requires s.isp == Day && s.avg.Some? && s.avg.value <= cfg.nightThresh
    ensures (exists n: nat :: Run(s, Constant(c, n), cfg).isp == Night) <==> c / 4 * 4 > cfg.nightThresh
  {
    if c / 4 * 4 > cfg.nightThresh {
      var avg := s.avg.value;
      var n := c / 4 * 4 - avg;
      ClimbsTo(avg, c, n);
      RunSettles(s, c, n, cfg);
      ConstantNext(c, n - 1);
      assert Run(s, Constant(c, n), cfg).isp == Night;
    } else {
      forall n: nat
        ensures Run(s, Constant(c, n), cfg).isp == Day
      {
        StaysDay(s, c, n, cfg);
      }
    }
  }

  lemma LedsOfTick(s: State, ev: int, cfg: Config)
    requires !cfg.ledOff && !s.leds
    ensures Tick(s, ev, cfg).leds == (Value(Tick(s, ev, cfg).avg) > cfg.ledThresh)
  {
  }

  lemma {:induction false} StaysDark(s: State, c: int, n: nat, cfg: Config)
    requires !cfg.ledOff && !s.leds && s.avg.Some? && s.avg.value <= cfg.ledThresh
    requires c / 4 * 4 <= cfg.ledThresh
    ensures !Run(s, Constant(c, n), cfg).leds
  {
    hide Tick, Settled;
    RunSettles(s, c, n, cfg);
    if n > 0 {
      StaysDark(s, c, n - 1, cfg);
      ConstantNext(c, n - 1);
      StaysBelow(s.avg.value, c, n, cfg.ledThresh);
      LedsOfTick(Run(s, Constant(c, n - 1), cfg), c, cfg);
    }
  }

  /** A constant exposure c turns dark LEDs on if and only if c, rounded down to
      a multiple of four, exceeds their threshold. */
  lemma LedsForced(s: State, c: int, cfg: Config)
    requires !cfg.ledOff && !s.leds && s.avg.Some? && s.avg.value <= cfg.ledThresh
    ensures (exists n: nat :: Run(s, Constant(c, n), cfg).leds) <==> c / 4 * 4 > cfg.ledThresh
  {
    hide Tick, Settled;
    if c / 4 * 4 > cfg.ledThresh {
      var avg := s.avg.value;
      var n := c / 4 * 4 - avg;
      ClimbsTo(avg, c, n);
      RunSettles(s, c, n, cfg);
      ConstantNext(c, n - 1);
      var before := Run(s, Constant(c, n - 1), cfg);
      if !before.leds {
        LedsOfTick(before, c, cfg);
        assert Run(s, Constant(c, n), cfg).leds;
      }
    } else {
      forall n: nat
        ensures !Run(s, Constant(c, n), cfg).leds
      {
        StaysDark(s, c, n, cfg);
      }
    }
  }

  lemma {:induction false} FallsTo(avg: int, c: int, n: nat)
    requires avg >= c / 4 * 4 + 3
    ensures c / 4 * 4 + 3 <= Settled(avg, c, n) <= Max(c / 4 * 4 + 3, avg - n)
  {
    if n > 0 {
      FallsTo(avg, c, n - 1);
    }
  }

  lemma {:induction false} StaysAbove(avg: int, c: int, n: nat, level: int)
    requires avg >= level && c / 4 * 4 + 3 >= level
    ensures Settled(avg, c, n) >= level
  {
    if n > 0 {
      StaysAbove(avg, c, n - 1, level);
    }
  }

  lemma {:induction false} StaysNight(s: State, c: int, n: nat, cfg: Config)
    requires s.isp == Night && s.avg.Some? && s.avg.value >= cfg.dayThresh
    requires c / 4 * 4 + 3 >= cfg.dayThresh
    ensures Run(s, Constant(c, n), cfg).isp == Night
    ensures Run(s, Constant(c, n), cfg).avg == Some(Settled(s.avg.value, c, n))
  {
    hide Tick, Settled;
    RunSettles(s, c, n, cfg);
    if n > 0 {
      StaysNight(s, c, n - 1, cfg);
      ConstantNext(c, n - 1);
      StaysAbove(s.avg.value, c, n, cfg.dayThresh);
      ModeOfTick(Run(s, Constant(c, n - 1), cfg), c, cfg);
    }
  }

  /** From night, a constant exposure c forces day if and only if c, rounded up
      to three more than a multiple of four, is below the threshold. */
  lemma DayForced(s: State, c: int, cfg: Config)
    requires s.isp == Night && s.avg.Some? && s.avg.value >= cfg.dayThresh
    requires cfg.dayThresh <= cfg.nightThresh
    ensures (exists n: nat :: Run(s, Constant(c, n), cfg).isp == Day) <==> c / 4 * 4 + 3 < cfg.dayThresh
  {
    hide Tick, Settled;
    if c / 4 * 4 + 3 < cfg.dayThresh {
      var avg := s.avg.value;
      var n := avg - (c / 4 * 4 + 3);
      FallsTo(avg, c, n);
      RunSettles(s, c, n, cfg);
      ConstantNext(c, n - 1);
      ModeOfTick(Run(s, Constant(c, n - 1), cfg), c, cfg);
      assert Run(s, Constant(c, n), cfg).isp == Day;
    } else {
      forall n: nat
        ensures Run(s, Constant(c, n), cfg).isp == Night
      {
        StaysNight(s, c, n, cfg);
      }
    }
  }

  // ---- the exposure report ----

  function MaxOf(s: seq<int>): int
    requires s != []
  {
    if |s| == 1 then s[0] else Max(s[|s| - 1], MaxOf(s[..|s| - 1]))
  }

  function MinOf(s: seq<int>): int
    requires s != []
  {
    if |s| == 1 then s[0] else Min(s[|s| - 1], MinOf(s[..|s| - 1]))
  }

  /** Samples collected since the last report, and seconds to the next, after n
      ticks: both depend on the configuration alone. */
  function Clock(n: nat, cfg: Config): (nat, int) {
    if n == 0 then (0, cfg.reportSeconds)
    else
      var (k, left) := Clock(n - 1, cfg);
      if left - cfg.interval <= 0 then (0, cfg.reportSeconds) else (k + 1, left - cfg.interval)
  }

  /** A report is due at every p-th poll, where p polls are the first to take up
      the report period: k polls after the q-th report, k samples are in. */
  lemma {:induction false} ReportEvery(q: nat, k: nat, p: nat, cfg: Config)
    requires k < p && (p - 1) * cfg.interval < cfg.reportSeconds <= p * cfg.interval
    ensures Clock(q * p + k, cfg) == (k, cfg.reportSeconds - k * cfg.interval)
    decreases q, k
  {
    if k > 0 {
      ReportEvery(q, k - 1, p, cfg);
      ClockNext(q * p + k, cfg);
      Later(k, p, cfg);
    } else if q > 0 {
      ReportEvery(q - 1, p - 1, p, cfg);
      NextRound(q, p);
      ClockNext(q * p, cfg);
      LastOfRound(p, cfg);
    }
  }

  lemma ClockNext(n: nat, cfg: Config)
    requires n > 0
    ensures var (k, left) := Clock(n - 1, cfg);
            Clock(n, cfg) == if left <= cfg.interval then (0, cfg.reportSeconds) else (k + 1, left - cfg.interval)
  {
  }

  lemma NextRound(q: nat, p: nat)
    requires q > 0 && p > 0
    ensures (q - 1) * p + (p - 1) + 1 == q * p > 0
  {
  }

  lemma Later(k: nat, p: nat, cfg: Config)
    requires 0 < k < p && (p - 1) * cfg.interval < cfg.reportSeconds <= p * cfg.interval
    ensures (k - 1) * cfg.interval + cfg.interval == k * cfg.interval < cfg.reportSeconds
  {
    SumTimes(p - 1, 1, cfg.interval);
    SumTimes(k - 1, 1, cfg.interval);
    SumTimes(k, p - 1 - k, cfg.interval);
    TimesNat(p - 1 - k, cfg.interval);
  }

  lemma SumTimes(a: int, b: int, c: int)
    ensures (a + b) * c == a * c + b * c
  {
  }

  lemma TimesNat(a: nat, b: nat)
    ensures a * b >= 0
  {
  }

  lemma LastOfRound(p: nat, cfg: Config)
    requires p > 0 && cfg.reportSeconds <= p * cfg.interval
    ensures cfg.reportSeconds - (p - 1) * cfg.interval <= cfg.interval
  {
  }

  /** The figures that a report at this tick prints. */
  function Printed(isp: Mode, evs: seq<int>, cfg: Config): Stats
    requires evs != []
  {
    Observe(Run(Start(isp, cfg), evs[..|evs| - 1], cfg).stats, evs[|evs| - 1])
  }

  /** `st` covers the last k samples, under both of its names. */
  predicate Covers(st: Stats, evs: seq<int>, k: nat)
    requires 0 < k <= |evs|
  {
    && st.winMax == st.allMax == MaxOf(evs[|evs| - k..])
    && st.winMin == st.allMin == MinOf(evs[|evs| - k..])
  }

  lemma ObserveCovers(st: Stats, evs: seq<int>, ev: int)
    requires st.samples <= |evs|
    requires st.samples > 0 ==> Covers(st, evs, st.samples)
    ensures Covers(Observe(st, ev), evs + [ev], st.samples + 1)
  {
    var k := st.samples;
    var w := (evs + [ev])[|evs| - k..];
    assert w == evs[|evs| - k..] + [ev];
    assert w[..k] == evs[|evs| - k..];
  }

  lemma ObserveSamples(st: Stats, ev: int)
    ensures Observe(st, ev).samples == st.samples + 1 && Observe(st, ev).reportIn == st.reportIn
  {
  }

  lemma ReportKeeps(st: Stats, oldAvg: int, evs: seq<int>, cfg: Config)
    requires 0 < st.samples <= |evs| && Covers(st, evs, st.samples)
    ensures var next, left := Report(st, oldAvg, cfg), st.reportIn - cfg.interval;
            && (next.samples, next.reportIn) == (if left <= 0 then (0, cfg.reportSeconds) else (st.samples, left))
            && (next.samples > 0 ==> Covers(next, evs, next.samples))
  {
  }

  lemma TickStats(s: State, ev: int, cfg: Config)
    ensures Tick(s, ev, cfg).stats == Report(Observe(s.stats, ev), Value(s.avg), cfg)
  {
  }

  lemma {:induction false} StatsWindow(isp: Mode, evs: seq<int>, cfg: Config)
    ensures var st := Run(Start(isp, cfg), evs, cfg).stats;
            && (st.samples, st.reportIn) == Clock(|evs|, cfg)
            && st.samples <= |evs|
            && (st.samples > 0 ==> Covers(st, evs, st.samples))
  {
    hide Tick, Observe, Report, Covers;
    if evs != [] {
      var before, ev := evs[..|evs| - 1], evs[|evs| - 1];
      var s := Run(Start(isp, cfg), before, cfg);
      StatsWindow(isp, before, cfg);
      TickStats(s, ev, cfg);
      ObserveSamples(s.stats, ev);
      ObserveCovers(s.stats, before, ev);
      assert before + [ev] == evs;
      ReportKeeps(Observe(s.stats, ev), Value(s.avg), evs, cfg);
    }
  }

  /** The range printed as "since start" is always the range of the current
      report window, the same figures that the line prints for the window. */
  lemma PrintedWindow(isp: Mode, evs: seq<int>, cfg: Config)
    requires evs != []
    ensures var k := Clock(|evs| - 1, cfg).0 + 1;
            k <= |evs| && Covers(Printed(isp, evs, cfg), evs, k)
  {
    hide Covers, Observe, Run;
    var before, ev := evs[..|evs| - 1], evs[|evs| - 1];
    StatsWindow(isp, before, cfg);
    ObserveCovers(Run(Start(isp, cfg), before, cfg).stats, before, ev);
    assert before + [ev] == evs;
  }

  /** One sample apart from the rest, at the start of the run. */
  function FirstAt(v: int, n: nat): seq<int>
    requires n > 0
  {
    [v] + Constant(0, n - 1)
  }

  lemma {:induction false} RangeOfZeros(s: seq<int>)
    requires s != [] && forall i :: 0 <= i < |s| ==> s[i] == 0
    ensures MinOf(s) == MaxOf(s) == 0
  {
    if |s| > 1 {
      RangeOfZeros(s[..|s| - 1]);
    }
  }

  lemma {:induction false} FirstInRange(s: seq<int>)
    requires s != []
    ensures MinOf(s) <= s[0] <= MaxOf(s)
  {
    if |s| > 1 {
      FirstInRange(s[..|s| - 1]);
    }
  }

  /** With an earlier report, the printed range misses the first sample. */
  lemma FirstIsMissed(isp: Mode, v: int, n: nat, cfg: Config)
    requires n > 0 && Clock(n - 1, cfg).0 != n - 1
    ensures var evs := FirstAt(v, n);
            && |evs| == n && MinOf(evs) <= v <= MaxOf(evs)
            && Printed(isp, evs, cfg).allMin == Printed(isp, evs, cfg).allMax == 0
  {
    hide Printed;
    var evs, k := FirstAt(v, n), Clock(n - 1, cfg).0 + 1;
    PrintedWindow(isp, evs, cfg);
    RangeOfZeros(evs[n - k..]);
    FirstInRange(evs);
  }

  /** The maximum printed at the n-th poll is that of the whole run, for every
      run, if and only if no earlier poll has printed a report; and so is the
      minimum. */
  lemma AllTimeOnlyBeforeFirstReport(isp: Mode, n: nat, cfg: Config)
    requires n > 0
    ensures (forall evs :: |evs| == n ==> Printed(isp, evs, cfg).allMax == MaxOf(evs))
       <==> Clock(n - 1, cfg).0 == n - 1
    ensures (forall evs :: |evs| == n ==> Printed(isp, evs, cfg).allMin == MinOf(evs))
       <==> Clock(n - 1, cfg).0 == n - 1
  {
    hide Printed, MinOf, MaxOf;
    if Clock(n - 1, cfg).0 == n - 1 {
      forall evs: seq<int> | |evs| == n
        ensures Printed(isp, evs, cfg).allMax == MaxOf(evs) && Printed(isp, evs, cfg).allMin == MinOf(evs)
      {
        PrintedWindow(isp, evs, cfg);
        assert evs[0..] == evs;
      }
    } else {
      FirstIsMissed(isp, 1, n, cfg);
      FirstIsMissed(isp, -1, n, cfg);
    }
  }
}
