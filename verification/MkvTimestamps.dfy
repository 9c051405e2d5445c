/** The timestamp fix-up of the recorder (mkv_recorder.c:403-420), on the encoder
    timestamps of the frames of one file. */
module MkvTimestamps {

  /** g_first_pts and g_last_relative_ts; -1 stands for "not set". */
  datatype Clock = Clock(first: int, last: int)

  const FRESH := Clock(-1, -1)

  /** Stamps one frame; `last` of the result is its DTS. */
  function Stamp(c: Clock, ts: int): Clock {
    var first := if c.first < 0 then ts else c.first;
    var relative := ts - first;
    Clock(first, if relative <= c.last then c.last + 1 else relative)
  }

  function StampAll(ts: seq<int>): Clock {
    if ts == [] then FRESH else Stamp(StampAll(ts[..|ts| - 1]), ts[|ts| - 1])
  }

  /** DTS of frame n of a file. */
  function Dts(ts: seq<int>, n: nat): int
    requires n < |ts|
  {
    StampAll(ts[..n + 1]).last
  }

  lemma DtsNext(ts: seq<int>, n: nat)
    requires 0 < n < |ts|
    ensures StampAll(ts[..n + 1]) == Stamp(StampAll(ts[..n]), ts[n])
    ensures StampAll(ts[..n]).last == Dts(ts, n - 1)
  {
    assert ts[..n + 1][..n] == ts[..n];
  }

  lemma DtsFirst(ts: seq<int>)
    requires ts != []
    ensures StampAll(ts[..1]) == Clock(ts[0], 0)
  {
    assert ts[..1][..0] == [];
  }

  /** Whatever the encoder delivers, the written DTS start at 0 and strictly
      increase. */
  lemma {:induction false} StrictlyIncreasing(ts: seq<int>, i: nat, j: nat)
    requires i <= j < |ts|
    ensures Dts(ts, 0) == 0
    ensures i < j ==> Dts(ts, i) < Dts(ts, j)
  {
    DtsFirst(ts);
    if i < j {
      StrictlyIncreasing(ts, i, j - 1);
      DtsNext(ts, j);
    }
  }

  // ---- closed form ----

  /** The frame whose timestamp becomes the origin of the file: the first that
      is not negative; the number of frames if there is none. */
  function Origin(ts: seq<int>): (m: nat)
    ensures m <= |ts|
    ensures forall i :: 0 <= i < m ==> ts[i] < 0
    ensures m < |ts| ==> ts[m] >= 0
  {
    if ts == [] || ts[0] >= 0 then 0 else 1 + Origin(ts[1..])
  }

  /** The k-th frame counted from origin m, pushed forward by one tick for each
      later frame up to n. */
  function Pushed(ts: seq<int>, m: nat, n: nat, k: nat): int
    requires m <= k <= n < |ts|
  {
    ts[k] - ts[m] + (n - k)
  }

  /** Before the origin the DTS count the frames; from the origin m on, the DTS
      of frame n is the greatest of n and ts[k] - ts[m] + (n - k), m <= k <= n. */
  predicate IsClosedForm(v: int, ts: seq<int>, n: nat)
    requires n < |ts|
  {
    var m := Origin(ts);
    && v >= n
    && (forall k: nat | m <= k <= n :: Pushed(ts, m, n, k) <= v)
    && (v == n || exists k: nat | m <= k <= n :: Pushed(ts, m, n, k) == v)
  }

  /** The closed form, for all timestamps whatever their signs. */
  lemma {:induction false} ClosedForm(ts: seq<int>, n: nat)
    requires n < |ts|
    ensures IsClosedForm(Dts(ts, n), ts, n)
    ensures StampAll(ts[..n + 1]).first == ts[if n < Origin(ts) then n else Origin(ts)]
  {
    hide Origin, StampAll;
    DtsFirst(ts);
    var m := Origin(ts);
    if n == 0 {
      assert m == 0 ==> Pushed(ts, 0, 0, 0) == 0;
    } else {
      ClosedForm(ts, n - 1);
      DtsNext(ts, n);
      ClosedFormStep(ts, n, m, Dts(ts, n - 1), Dts(ts, n));
    }
  }

  lemma ClosedFormStep(ts: seq<int>, n: nat, m: nat, before: int, v: int)
    requires 0 < n < |ts| && m == Origin(ts)
    requires IsClosedForm(before, ts, n - 1)
    requires v == Stamp(Clock(ts[if n - 1 < m then n - 1 else m], before), ts[n]).last
    ensures IsClosedForm(v, ts, n)
  {
    hide Origin;
    if n >= m {
      assert Pushed(ts, m, n, n) == ts[n] - ts[m];
      forall k: nat | m <= k <= n
        ensures Pushed(ts, m, n, k) <= v
      {
        if k < n {
          assert Pushed(ts, m, n - 1, k) <= before;
        }
      }
      if before > n - 1 {
        var k: nat :| m <= k <= n - 1 && Pushed(ts, m, n - 1, k) == before;
        assert Pushed(ts, m, n, k) == before + 1;
      }
    }
  }

  /** v is the greatest of ts[k] - ts[0] + (n - k) over the frames up to n. */
  predicate IsMaxFromFirst(v: int, ts: seq<int>, n: nat)
    requires n < |ts|
  {
    && (exists k: nat | k <= n :: Pushed(ts, 0, n, k) == v)
    && (forall k: nat | k <= n :: Pushed(ts, 0, n, k) <= v)
  }

  /** The first frame is the origin of the closed form if and only if its
      timestamp is not negative, or no frame up to n ran ahead of one tick per
      frame. */
  lemma FirstIsOrigin(ts: seq<int>, n: nat)
    requires n < |ts|
    ensures IsMaxFromFirst(Dts(ts, n), ts, n) <==> ts[0] >= 0 || forall k: nat | k <= n :: ts[k] - ts[0] <= k
  {
    hide StampAll, Dts;
    ClosedForm(ts, n);
    var m, v := Origin(ts), Dts(ts, n);
    assert Pushed(ts, 0, n, 0) == n;
    if ts[0] >= 0 {
      assert m == 0;
    } else if forall k: nat | k <= n :: ts[k] - ts[0] <= k {
      forall k: nat | m <= k <= n
        ensures Pushed(ts, m, n, k) <= n
      {
      }
      assert v == n;
    } else {
      var k: nat :| k <= n && ts[k] - ts[0] > k;
      assert Pushed(ts, 0, n, k) > n;
      if v > n {
        var j: nat :| m <= j <= n && Pushed(ts, m, n, j) == v;
        assert Pushed(ts, 0, n, j) > v;
      }
    }
  }

  /** Timestamps that already increase are written unchanged, relative to the
      first. */
  lemma {:induction false} ExactWhenIncreasing(ts: seq<int>, n: nat)
    requires n < |ts| && ts[0] >= 0
    requires forall i, j :: 0 <= i < j < |ts| ==> ts[i] < ts[j]
    ensures Dts(ts, n) == ts[n] - ts[0]
    ensures StampAll(ts[..n + 1]).first == ts[0]
  {
    if n == 0 {
      DtsFirst(ts);
    } else {
      ExactWhenIncreasing(ts, n - 1);
      DtsNext(ts, n);
    }
  }

  /** A negative first timestamp reads as "not set", and the next frame becomes
      the origin: of the 15 microseconds between these two, one is written. */
  lemma NegativeOriginIsLost()
    ensures Dts([-5, 10], 1) == 1
    ensures !IsMaxFromFirst(Dts([-5, 10], 1), [-5, 10], 1)
  {
    var ts := [-5, 10];
    DtsFirst(ts);
    DtsNext(ts, 1);
    assert Pushed(ts, 0, 1, 1) == 15;
  }
}
