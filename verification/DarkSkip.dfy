/** The dark-chunk test: a ring of the last 512 exposure samples, and a verdict
    over the recording window of a finished chunk. */
module DarkSkip {
  import opened CLib

  const SLOTS: nat := 512

  datatype Sample = Sample(ev: int, again: int, t: int)

  datatype Config = Config(darkEv: int, darkAgain: int, interval: int, minAge: int, ratio: int)

  // ---- the verdict over a history ----

  predicate InWindow(s: Sample, start: int, end: int) {
    start <= s.t <= end
  }

  predicate IsDark(s: Sample, cfg: Config) {
    s.ev >= cfg.darkEv && s.again >= cfg.darkAgain
  }

  function Window(history: seq<Sample>, start: int, end: int): seq<Sample> {
    if history == [] then []
    else
      var n := |history| - 1;
      Window(history[..n], start, end) + if InWindow(history[n], start, end) then [history[n]] else []
  }

  function DarkCount(w: seq<Sample>, cfg: Config): (n: nat)
    ensures n <= |w|
  {
    if w == [] then 0 else DarkCount(w[..|w| - 1], cfg) + if IsDark(w[|w| - 1], cfg) then 1 else 0
  }

  /** The first time that is not 0, the value the source starts from. */
  function Oldest(w: seq<Sample>): int {
    if w == [] then 0
    else
      var before := Oldest(w[..|w| - 1]);
      if before == 0 then w[|w| - 1].t else before
  }

  function Slack(cfg: Config): int {
    if cfg.interval > 0 then cfg.interval else 5
  }

  function Ratio(cfg: Config): int {
    if cfg.ratio < 1 then 1 else if cfg.ratio > 100 then 100 else cfg.ratio
  }

  /** The judgement on the samples of one window. */
  predicate Judge(w: seq<Sample>, start: int, end: int, cfg: Config) {
    && w != [] && Oldest(w) <= start + Slack(cfg)
    && end - start >= cfg.minAge
    && DarkCount(w, cfg) * 100 >= |w| * Ratio(cfg)
  }

  predicate Verdict(history: seq<Sample>, start: int, end: int, cfg: Config) {
    end > start && Judge(Window(history, start, end), start, end, cfg)
  }

  // ---- the ring ----

  function Last(history: seq<Sample>, n: nat): seq<Sample> {
    if |history| <= n then history else history[|history| - n..]
  }

  /** The slot of the i-th oldest of `count` samples, as the source computes it. */
  function Slot(head: nat, count: nat, i: nat): (slot: nat)
    requires head < SLOTS && count <= SLOTS && i <= count
    ensures slot < SLOTS
  {
    (head - count + i + SLOTS * 2) % SLOTS
  }

  /** Moving the head on by one leaves the retained samples where they were,
      and the newest one in the slot just left. */
  lemma SlotShift(head: nat, count: nat, i: nat)
    requires head < SLOTS && count <= SLOTS
    requires count < SLOTS ==> head == count
    ensures var next := (head + 1) % SLOTS;
            if count < SLOTS
            then i < count ==> Slot(head, count, i) != head && Slot(next, count + 1, i) == Slot(head, count, i)
            else i < SLOTS - 1 ==> Slot(head, count, i + 1) != head && Slot(next, count, i) == Slot(head, count, i + 1)
    ensures var next := (head + 1) % SLOTS;
            if count < SLOTS then Slot(next, count + 1, count) == head else Slot(next, count, SLOTS - 1) == head
  {
  }

  /** The slots hold these samples, oldest first. */
  predicate Retains(slots: seq<Sample>, head: nat, count: nat, kept: seq<Sample>) {
    && |slots| == SLOTS && head < SLOTS && count == |kept| <= SLOTS && (count < SLOTS ==> head == count)
    && forall i :: 0 <= i < count ==> slots[Slot(head, count, i)] == kept[i]
  }

  lemma NoteRetains(slots: seq<Sample>, head: nat, count: nat, kept: seq<Sample>, s: Sample)
    requires Retains(slots, head, count, kept)
    ensures Retains(slots[head := s], (head + 1) % SLOTS, if count < SLOTS then count + 1 else count,
                    (if count < SLOTS then kept else kept[1..]) + [s])
  {
    hide Slot;
    var kept' := (if count < SLOTS then kept else kept[1..]) + [s];
    forall i: nat | i < |kept'|
      ensures slots[head := s][Slot((head + 1) % SLOTS, |kept'|, i)] == kept'[i]
    {
      SlotShift(head, count, i);
    }
  }

  lemma LastNext(history: seq<Sample>, s: Sample)
    ensures var kept := Last(history, SLOTS);
            Last(history + [s], SLOTS) == (if |kept| < SLOTS then kept else kept[1..]) + [s]
  {
  }

  class Ring {
    const slots: array<Sample>
    var head: nat
    var count: nat
    ghost var history: seq<Sample>   // every sample ever noted

    /** The ring holds exactly the last 512 samples, oldest first. */
    ghost predicate Valid()
      reads this, slots
    {
      slots.Length == SLOTS && Retains(slots[..], head, count, Last(history, SLOTS))
    }

    constructor ()
      ensures Valid() && history == [] && fresh(slots)
    {
      slots := new Sample[SLOTS](i => Sample(0, 0, 0));
      head, count, history := 0, 0, [];
    }

    /** darkskip_note_sample, with the clock reading passed in. */
    method Note(ev: int, again: int, now: int)
      requires Valid()
      modifies this, slots
      ensures Valid() && history == old(history) + [Sample(ev, again, now)]
    {
      hide Slot, Last;
      LastNext(history, Sample(ev, again, now));
      NoteRetains(slots[..], head, count, Last(history, SLOTS), Sample(ev, again, now));
      ghost var before := slots[..];
      slots[head] := Sample(ev, again, now);
      assert slots[..] == before[head := Sample(ev, again, now)];
      head := (head + 1) % SLOTS;
      if count < SLOTS {
        count := count + 1;
      }
      history := history + [Sample(ev, again, now)];
    }

    /** darkskip_range_is_dark. */
    method RangeIsDark(start: int, end: int, cfg: Config) returns (dark: bool)
      requires Valid()
      ensures dark == Verdict(Last(history, SLOTS), start, end, cfg)
    {
      if end <= start {
        return false;
      }
      ghost var kept := Last(history, SLOTS);
      var oldest, inWindow, darkOnes := 0, 0, 0;
      var n := count;
      for i := 0 to n
        invariant oldest == Oldest(Window(kept[..i], start, end))
        invariant inWindow == |Window(kept[..i], start, end)|
        invariant darkOnes == DarkCount(Window(kept[..i], start, end), cfg)
      {
        assert (head - n + i + SLOTS * 2) % SLOTS == Slot(head, n, i);
        var s := slots[(head - n + i + SLOTS * 2) % SLOTS];
        WindowNext(kept, i, start, end, cfg);
        if s.t < start || s.t > end {
          continue;
        }
        if oldest == 0 {
          oldest := s.t;
        }
        inWindow := inWindow + 1;
        if s.ev >= cfg.darkEv && s.again >= cfg.darkAgain {
          darkOnes := darkOnes + 1;
        }
      }
      assert kept[..n] == kept;
      var slack := if cfg.interval > 0 then cfg.interval else 5;
      if inWindow == 0 || oldest > start + slack {
        return false;
      }
      if end - start < cfg.minAge {
        return false;
      }
      var ratio := cfg.ratio;
      if ratio < 1 {
        ratio := 1;
      }
      if ratio > 100 {
        ratio := 100;
      }
      return darkOnes * 100 >= inWindow * ratio;
    }
  }

  lemma WindowNext(h: seq<Sample>, i: nat, start: int, end: int, cfg: Config)
    requires i < |h|
    ensures var w, w' := Window(h[..i], start, end), Window(h[..i + 1], start, end);
            if InWindow(h[i], start, end)
            then && |w'| == |w| + 1
                 && Oldest(w') == (if Oldest(w) == 0 then h[i].t else Oldest(w))
                 && DarkCount(w', cfg) == DarkCount(w, cfg) + if IsDark(h[i], cfg) then 1 else 0
            else w' == w
  {
    assert h[..i + 1][..i] == h[..i];
    var w, w' := Window(h[..i], start, end), Window(h[..i + 1], start, end);
    if InWindow(h[i], start, end) {
      assert w' == w + [h[i]];
      assert w'[..|w|] == w;
    }
  }

  // ---- the ring against the unbounded history ----

  /** Sample times come from a clock past the epoch that does not run back. */
  predicate Chronological(h: seq<Sample>) {
    && (forall i :: 0 <= i < |h| ==> h[i].t > 0)
    && (forall i, j :: 0 <= i < j < |h| ==> h[i].t <= h[j].t)
  }

  lemma {:induction false} WindowConcat(a: seq<Sample>, b: seq<Sample>, start: int, end: int)
    ensures Window(a + b, start, end) == Window(a, start, end) + Window(b, start, end)
  {
    if b == [] {
      assert a + b == a;
    } else {
      assert (a + b)[..|a + b| - 1] == a + b[..|b| - 1];
      WindowConcat(a, b[..|b| - 1], start, end);
    }
  }

  lemma {:induction false} WindowEmpty(h: seq<Sample>, start: int, end: int)
    requires forall i :: 0 <= i < |h| ==> !InWindow(h[i], start, end)
    ensures Window(h, start, end) == []
  {
    if h != [] {
      WindowEmpty(h[..|h| - 1], start, end);
    }
  }

  function Evicted(history: seq<Sample>): seq<Sample> {
    if |history| <= SLOTS then [] else history[..|history| - SLOTS]
  }

  /** The ring gives the verdict of the whole history whenever nothing was
      evicted or a retained sample predates the window. */
  lemma RingSuffices(history: seq<Sample>, start: int, end: int, cfg: Config)
    requires Chronological(history)
    requires |history| <= SLOTS || exists s :: s in Last(history, SLOTS) && s.t < start
    ensures Verdict(Last(history, SLOTS), start, end, cfg) == Verdict(history, start, end, cfg)
  {
    var kept, gone := Last(history, SLOTS), Evicted(history);
    assert history == gone + kept;
    if |history| > SLOTS {
      var k :| 0 <= k < |kept| && kept[k].t < start;
      forall i | 0 <= i < |gone|
        ensures !InWindow(gone[i], start, end)
      {
        assert gone[i] == history[i] && kept[k] == history[|gone| + k];
      }
    }
    WindowEmpty(gone, start, end);
    WindowConcat(gone, kept, start, end);
    assert Window(history, start, end) == Window(kept, start, end);
  }

  lemma {:induction false} WindowFromHistory(h: seq<Sample>, start: int, end: int)
    ensures forall s :: s in Window(h, start, end) <==> s in h && InWindow(s, start, end)
  {
    if h != [] {
      var n := |h| - 1;
      WindowFromHistory(h[..n], start, end);
      assert h == h[..n] + [h[n]];
    }
  }

  lemma {:induction false} OldestInside(w: seq<Sample>)
    requires w != [] && forall s :: s in w ==> s.t > 0
    ensures exists s :: s in w && Oldest(w) == s.t
    ensures Oldest(w) > 0
  {
    if |w| > 1 {
      var v := w[..|w| - 1];
      assert forall s :: s in v ==> s in w;
      OldestInside(v);
      var s :| s in v && Oldest(v) == s.t;
      assert s in w;
    } else {
      assert Oldest(w[..0]) == 0;
      assert w[0] in w;
    }
  }

  /** A dark verdict never rests on a history that misses the chunk: whatever
      the ring has lost of the window lies within one poll interval of its
      start. */
  lemma DarkMeansCovered(history: seq<Sample>, start: int, end: int, cfg: Config)
    requires Chronological(history)
    requires Verdict(Last(history, SLOTS), start, end, cfg)
    ensures forall s :: s in Evicted(history) && InWindow(s, start, end) ==> s.t <= start + Slack(cfg)
  {
    var kept, gone := Last(history, SLOTS), Evicted(history);
    var k := OldestKept(history, start, end);
    forall s | s in gone && InWindow(s, start, end)
      ensures s.t <= start + Slack(cfg)
    {
      var i :| 0 <= i < |gone| && gone[i] == s;
      assert gone[i] == history[i] && kept[k] == history[|gone| + k];
    }
  }

  /** The time that the source takes for the oldest is that of a sample it still
      has. */
  lemma OldestKept(history: seq<Sample>, start: int, end: int) returns (k: nat)
    requires Chronological(history) && Window(Last(history, SLOTS), start, end) != []
    ensures var kept := Last(history, SLOTS); k < |kept| && kept[k].t == Oldest(Window(kept, start, end))
  {
    hide Oldest, Window;
    var kept := Last(history, SLOTS);
    var w := Window(kept, start, end);
    WindowFromHistory(kept, start, end);
    forall s | s in w
      ensures s.t > 0
    {
      var i :| 0 <= i < |kept| && kept[i] == s;
      assert kept[i] == history[|history| - |kept| + i];
    }
    OldestInside(w);
    var o :| o in w && Oldest(w) == o.t;
    var i :| 0 <= i < |kept| && kept[i] == o;
    k := i;
  }

  // ---- "every sample was dark" ----

  predicate AllDark(w: seq<Sample>, cfg: Config) {
    forall s :: s in w ==> IsDark(s, cfg)
  }

  lemma {:induction false} DarkCountFull(w: seq<Sample>, cfg: Config)
    ensures DarkCount(w, cfg) == |w| <==> AllDark(w, cfg)
  {
    if w != [] {
      var v, last := w[..|w| - 1], w[|w| - 1];
      DarkCountFull(v, cfg);
      assert w == v + [last];
      assert AllDark(w, cfg) <==> AllDark(v, cfg) && IsDark(last, cfg);
    }
  }

  /** Samples are at least one poll interval apart. */
  predicate Polled(h: seq<Sample>, cfg: Config) {
    forall i, j :: 0 <= i < j < |h| ==> h[j].t - h[i].t >= cfg.interval
  }

  /** The header promises that a chunk is judged dark only if every sample in
      its window was: the promise for windows of n samples. */
  ghost predicate DarkMeansAllDark(n: nat, cfg: Config) {
    forall history, start, end ::
      Chronological(history) && Polled(history, cfg) && start > 0
      && Verdict(Last(history, SLOTS), start, end, cfg) && |Window(Last(history, SLOTS), start, end)| == n
      ==> AllDark(Window(Last(history, SLOTS), start, end), cfg)
  }

  /** The ring keeps the promise on windows of n samples if and only if one
      sample weighs more than the tolerance that the ratio leaves. */
  lemma PromiseKept(n: nat, cfg: Config)
    requires 0 < n <= SLOTS
    ensures DarkMeansAllDark(n, cfg) <==> n * (100 - Ratio(cfg)) < 100
  {
    hide Window, Verdict, Chronological, Polled, AllDark, Ratio, Last;
    if n * (100 - Ratio(cfg)) < 100 {
      forall history, start, end | Verdict(Last(history, SLOTS), start, end, cfg)
                                   && |Window(Last(history, SLOTS), start, end)| == n
        ensures AllDark(Window(Last(history, SLOTS), start, end), cfg)
      {
        DarkMeansEverySample(Last(history, SLOTS), start, end, cfg);
      }
    } else {
      OneBrightIsDark(n, cfg);
      assert !DarkMeansAllDark(n, cfg);
    }
  }

  lemma DarkMeansEverySample(history: seq<Sample>, start: int, end: int, cfg: Config)
    requires Verdict(history, start, end, cfg)
    requires |Window(history, start, end)| * (100 - Ratio(cfg)) < 100
    ensures AllDark(Window(history, start, end), cfg)
  {
    hide Window, DarkCount, Ratio, Oldest, AllDark;
    var w := Window(history, start, end);
    WithinTolerance(|w|, DarkCount(w, cfg), Ratio(cfg));
    DarkCountFull(w, cfg);
  }

  /** A tolerance of less than one sample is none. */
  lemma WithinTolerance(n: nat, dark: nat, ratio: int)
    requires dark <= n && dark * 100 >= n * ratio && n * (100 - ratio) < 100
    ensures dark == n
  {
    Tolerance(n, ratio);
  }

  lemma Tolerance(n: nat, ratio: int)
    ensures n * (100 - ratio) == n * 100 - n * ratio
  {
  }

  // ---- what a verdict says of the samples ----

  /** How many samples have an exposure or a gain below the dark level. */
  function Bright(w: seq<Sample>, cfg: Config): nat {
    if w == [] then 0
    else
      var last := w[|w| - 1];
      Bright(w[..|w| - 1], cfg) + if last.ev < cfg.darkEv || last.again < cfg.darkAgain then 1 else 0
  }

  lemma {:induction false} DarkOrBright(w: seq<Sample>, cfg: Config)
    ensures DarkCount(w, cfg) + Bright(w, cfg) == |w|
  {
    if w != [] {
      DarkOrBright(w[..|w| - 1], cfg);
    }
  }

  /** Samples a to b - 1 are those of the window. */
  predicate WindowAt(h: seq<Sample>, start: int, end: int, a: nat, b: nat) {
    && a <= b <= |h|
    && (forall i :: 0 <= i < a ==> h[i].t < start)
    && (forall i :: a <= i < b ==> start <= h[i].t <= end)
    && (forall i :: b <= i < |h| ==> h[i].t > end)
  }

  lemma WindowIsSlice(h: seq<Sample>, start: int, end: int, a: nat, b: nat)
    requires WindowAt(h, start, end, a, b)
    ensures Window(h, start, end) == h[a..b]
  {
    hide Window;
    WindowEmpty(h[..a], start, end);
    AllInWindow(h[a..b], start, end);
    WindowEmpty(h[b..], start, end);
    WindowConcat(h[..a], h[a..b], start, end);
    WindowConcat(h[..a] + h[a..b], h[b..], start, end);
    assert h[..a] + h[a..b] + h[b..] == h;
  }

  lemma Share(n: nat, dark: nat, bright: nat, ratio: int)
    requires dark + bright == n
    ensures dark * 100 >= n * ratio <==> bright * 100 <= n * (100 - ratio)
  {
    Tolerance(n, ratio);
  }

  /** A chunk is judged dark if and only if it is old enough, its first sample
      comes within one poll interval (5 seconds without one), and no more of its
      samples are bright than the ratio tolerates. */
  lemma VerdictMeans(h: seq<Sample>, start: int, end: int, a: nat, b: nat, cfg: Config)
    requires WindowAt(h, start, end, a, b) && forall i :: 0 <= i < |h| ==> h[i].t > 0
    ensures var w, ratio := h[a..b], Max(1, Min(100, cfg.ratio));
            Verdict(h, start, end, cfg)
            <==> && end > start && end - start >= cfg.minAge
                 && a < b && h[a].t - start <= (if cfg.interval > 0 then cfg.interval else 5)
                 && Bright(w, cfg) * 100 <= |w| * (100 - ratio)
  {
    hide Window, DarkCount, Bright, Oldest;
    var w := h[a..b];
    WindowIsSlice(h, start, end, a, b);
    DarkOrBright(w, cfg);
    Share(|w|, DarkCount(w, cfg), Bright(w, cfg), Ratio(cfg));
    if w != [] {
      FirstIsOldest(w);
    }
  }

  // ---- a bright sample in a chunk that is judged dark ----

  /** n samples one interval apart, all dark but the last. */
  function OneBright(n: nat, cfg: Config): seq<Sample> {
    seq(n, i => Sample(if i == n - 1 then cfg.darkEv - 1 else cfg.darkEv, cfg.darkAgain, 2 + i * Slack(cfg)))
  }

  /** The end of a window from second 1 that is long enough for n samples and for
      a verdict. */
  function EndFor(n: nat, cfg: Config): int {
    2 + n * Slack(cfg) + if cfg.minAge > 0 then cfg.minAge else 0
  }

  lemma {:induction false} AllInWindow(h: seq<Sample>, start: int, end: int)
    requires forall i :: 0 <= i < |h| ==> InWindow(h[i], start, end)
    ensures Window(h, start, end) == h
  {
    if h != [] {
      AllInWindow(h[..|h| - 1], start, end);
    }
  }

  lemma OneBrightIsDark(n: nat, cfg: Config)
    requires 0 < n <= SLOTS && n * (100 - Ratio(cfg)) >= 100
    ensures var h, end := OneBright(n, cfg), EndFor(n, cfg);
            && Chronological(h) && Polled(h, cfg) && Last(h, SLOTS) == h
            && Window(h, 1, end) == h && |h| == n
            && Verdict(h, 1, end, cfg) && !AllDark(h, cfg)
  {
    hide Window, Oldest, DarkCount;
    var h, end := OneBright(n, cfg), EndFor(n, cfg);
    Spaced(n, cfg);
    AllInWindow(h, 1, end);
    OneBrightCount(n, cfg);
    assert h[n - 1] in h && !IsDark(h[n - 1], cfg);
    FirstIsOldest(h);
    Tolerance(n, Ratio(cfg));
  }

  lemma {:induction false} Steps(i: nat, j: nat, step: nat)
    requires i < j
    ensures i * step + step <= j * step
  {
    if i + 1 < j {
      Steps(i, j - 1, step);
    }
    assert j * step == (j - 1) * step + step;
  }

  lemma Spaced(n: nat, cfg: Config)
    ensures Chronological(OneBright(n, cfg)) && Polled(OneBright(n, cfg), cfg)
    ensures forall i :: 0 <= i < n ==> InWindow(OneBright(n, cfg)[i], 1, EndFor(n, cfg))
  {
    var h, step := OneBright(n, cfg), Slack(cfg);
    forall i, j | 0 <= i < j < n
      ensures h[i].t + step <= h[j].t
    {
      Steps(i, j, step);
    }
    forall i | 0 <= i < n
      ensures 1 < h[i].t <= EndFor(n, cfg)
    {
      Steps(i, n, step);
      Steps(0, i + 1, step);
    }
  }

  lemma {:induction false} FirstIsOldest(w: seq<Sample>)
    requires w != [] && w[0].t > 0
    ensures Oldest(w) == w[0].t
  {
    if |w| > 1 {
      FirstIsOldest(w[..|w| - 1]);
    } else {
      assert Oldest(w[..0]) == 0;
    }
  }

  lemma OneBrightCount(n: nat, cfg: Config)
    requires n > 0
    ensures DarkCount(OneBright(n, cfg), cfg) == n - 1
  {
    var h := OneBright(n, cfg);
    var v := h[..n - 1];
    assert AllDark(v, cfg);
    DarkCountFull(v, cfg);
  }
}
