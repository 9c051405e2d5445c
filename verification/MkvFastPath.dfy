/** SPS/PPS caching of the recorder, with and without the fast path that skips
    frames not led by an SPS. */
module MkvFastPath {
  import opened CLib

  datatype Nal = Idr | Sps | Pps | Other

  datatype Pack = Pack(nal: Nal, data: seq<int>, ts: int)

  type Frame = seq<Pack>

  /** A cached parameter set.  The size outlives a buffer that could not be
      allocated. */
  datatype Param = Param(data: Option<seq<int>>, size: nat)

  datatype Cache = Cache(sps: Param, pps: Param, gotExtradata: bool)

  const EMPTY := Cache(Param(None, 0), Param(None, 0), false)

  function Store(p: Param, data: seq<int>, mallocOk: bool): Param {
    if p.size == |data| && p.data == Some(data) then p
    else if mallocOk then Param(Some(data), |data|)
    else Param(None, p.size)
  }

  function InspectPack(c: Cache, pack: Pack, mallocOk: bool): Cache {
    match pack.nal
    case Sps => c.(sps := Store(c.sps, pack.data, mallocOk))
    case Pps => c.(pps := Store(c.pps, pack.data, mallocOk))
    case _ => c
  }

  /** `oks` answers the allocation that a pack may ask for. */
  function InspectPacks(c: Cache, frame: Frame, oks: seq<bool>): Cache
    requires |oks| == |frame|
  {
    if frame == [] then c
    else InspectPack(InspectPacks(c, frame[..|frame| - 1], oks[..|frame| - 1]), frame[|frame| - 1], oks[|frame| - 1])
  }

  function Inspect(c: Cache, frame: Frame, oks: seq<bool>): Cache
    requires |oks| == |frame|
  {
    var d := InspectPacks(c, frame, oks);
    d.(gotExtradata := c.gotExtradata || (d.sps.data.Some? && d.pps.data.Some?))
  }

  predicate Holds(frame: Frame, nal: Nal) {
    exists i :: 0 <= i < |frame| && frame[i].nal == nal
  }

  /** The guard of the fast path. */
  predicate Skips(c: Cache, frame: Frame) {
    c.gotExtradata && frame != [] && frame[0].nal != Sps
  }

  function Fast(c: Cache, frame: Frame, oks: seq<bool>): (Cache, bool)
    requires |oks| == |frame|
  {
    if Skips(c, frame) then (c, false) else (Inspect(c, frame, oks), Holds(frame, Idr))
  }

  function Full(c: Cache, frame: Frame, oks: seq<bool>): (Cache, bool)
    requires |oks| == |frame|
  {
    (Inspect(c, frame, oks), Holds(frame, Idr))
  }

  /** inspect_frame. */
  class Inspector {
    var sps: Option<seq<int>>
    var spsSize: nat
    var pps: Option<seq<int>>
    var ppsSize: nat
    var gotExtradata: bool

    ghost function Abs(): Cache
      reads this
    {
      Cache(Param(sps, spsSize), Param(pps, ppsSize), gotExtradata)
    }

    constructor ()
      ensures Abs() == EMPTY
    {
      sps, spsSize, pps, ppsSize, gotExtradata := None, 0, None, 0, false;
    }

    method InspectFrame(frame: Frame, oks: seq<bool>) returns (idr: bool)
      requires |oks| == |frame|
      modifies this
      ensures Abs() == Inspect(old(Abs()), frame, oks)
      ensures idr == Holds(frame, Idr)
    {
      idr := false;
      ghost var c := Abs();
      for i := 0 to |frame|
        invariant idr == Holds(frame[..i], Idr)
        invariant Abs() == InspectPacks(c, frame[..i], oks[..i])
        invariant gotExtradata == c.gotExtradata
      {
        var pack := frame[i];
        assert frame[..i + 1][..i] == frame[..i] && oks[..i + 1][..i] == oks[..i];
        HoldsNext(frame, i);
        match pack.nal
        case Idr => idr := true;
        case Sps =>
          if !(spsSize == |pack.data| && sps == Some(pack.data)) {
            sps := None;
            if oks[i] {
              sps, spsSize := Some(pack.data), |pack.data|;
            }
          }
        case Pps =>
          if !(ppsSize == |pack.data| && pps == Some(pack.data)) {
            pps := None;
            if oks[i] {
              pps, ppsSize := Some(pack.data), |pack.data|;
            }
          }
        case Other =>
      }
      assert frame[..|frame|] == frame && oks[..|frame|] == oks;
      if sps.Some? && pps.Some? && !gotExtradata {
        gotExtradata := true;
      }
    }

    /** The part of mkv_recorder_shutdown that drops the parameter sets. */
    method Clear()
      modifies this
      ensures Abs() == EMPTY
    {
      sps, spsSize, pps, ppsSize, gotExtradata := None, 0, None, 0, false;
    }

    /** The choice at the head of mkv_recorder_write_frame. */
    method Detect(frame: Frame, oks: seq<bool>) returns (idr: bool)
      requires |oks| == |frame|
      modifies this
      ensures (Abs(), idr) == Fast(old(Abs()), frame, oks)
    {
      if gotExtradata && |frame| > 0 && frame[0].nal != Sps {
        idr := false;
      } else {
        idr := InspectFrame(frame, oks);
      }
    }
  }

  lemma HoldsNext(frame: Frame, i: nat)
    requires i < |frame|
    ensures Holds(frame[..i + 1], Idr) == (Holds(frame[..i], Idr) || frame[i].nal == Idr)
  {
    var f := frame[..i + 1];
    if frame[i].nal == Idr {
      assert f[i].nal == Idr;
    }
    if Holds(frame[..i], Idr) {
      var k :| 0 <= k < i && frame[..i][k].nal == Idr;
      assert f[k].nal == Idr;
    }
    if Holds(f, Idr) {
      var k :| 0 <= k <= i && f[k].nal == Idr;
      assert k < i ==> frame[..i][k].nal == Idr;
    }
  }

  // ---- when the fast path is exact ----

  /** Every IDR, SPS or PPS pack travels in a frame led by an SPS. */
  predicate SpsLed(frame: Frame) {
    Holds(frame, Idr) || Holds(frame, Sps) || Holds(frame, Pps) ==> frame[0].nal == Sps
  }

  lemma {:induction false} NothingToCache(c: Cache, frame: Frame, oks: seq<bool>)
    requires |oks| == |frame|
    requires !Holds(frame, Sps) && !Holds(frame, Pps)
    ensures InspectPacks(c, frame, oks) == c
  {
    if frame != [] {
      var n := |frame| - 1;
      assert frame[n].nal != Sps && frame[n].nal != Pps;
      assert forall i :: 0 <= i < n ==> frame[..n][i] == frame[i];
      NothingToCache(c, frame[..n], oks[..n]);
    }
  }

  /** A frame by frame run over the whole stream: the cache and the IDR flags. */
  function RunFast(frames: seq<Frame>, oks: seq<seq<bool>>): (Cache, seq<bool>)
    requires |oks| == |frames| && forall i :: 0 <= i < |frames| ==> |oks[i]| == |frames[i]|
  {
    if frames == [] then (EMPTY, [])
    else
      var n := |frames| - 1;
      var (c, flags) := RunFast(frames[..n], oks[..n]);
      var (d, idr) := Fast(c, frames[n], oks[n]);
      (d, flags + [idr])
  }

  function RunFull(frames: seq<Frame>, oks: seq<seq<bool>>): (Cache, seq<bool>)
    requires |oks| == |frames| && forall i :: 0 <= i < |frames| ==> |oks[i]| == |frames[i]|
  {
    if frames == [] then (EMPTY, [])
    else
      var n := |frames| - 1;
      var (c, flags) := RunFull(frames[..n], oks[..n]);
      var (d, idr) := Full(c, frames[n], oks[n]);
      (d, flags + [idr])
  }

  /** On a stream whose parameter sets and IDRs travel behind an SPS, skipping
      frames changes neither the IDR flags nor the cached parameter sets,
      however the allocations go. */
  lemma {:induction false} FastPathExact(frames: seq<Frame>, oks: seq<seq<bool>>)
    requires |oks| == |frames| && forall i :: 0 <= i < |frames| ==> |oks[i]| == |frames[i]|
    requires forall i :: 0 <= i < |frames| ==> SpsLed(frames[i])
    ensures RunFast(frames, oks) == RunFull(frames, oks)
  {
    if frames != [] {
      var n := |frames| - 1;
      FastPathExact(frames[..n], oks[..n]);
      var c := RunFull(frames[..n], oks[..n]).0;
      FastIsFull(c, frames[n], oks[n]);
    }
  }

  lemma FastIsFull(c: Cache, frame: Frame, oks: seq<bool>)
    requires |oks| == |frame| && SpsLed(frame)
    ensures Fast(c, frame, oks) == Full(c, frame, oks)
  {
    if Skips(c, frame) {
      NothingToCache(c, frame, oks);
    }
  }

  // ---- what skipping a frame can lose ----

  /** What the recorder uses of a cache, and the IDR flag: a size without its
      buffer is never read. */
  function View(r: (Cache, bool)): (Option<seq<int>>, Option<seq<int>>, bool, bool) {
    (r.0.sps.data, r.0.pps.data, r.0.gotExtradata, r.1)
  }

  predicate WellSized(p: Param) {
    p.data.Some? ==> p.size == |p.data.value|
  }

  /** Pack i is stored, and no later pack of its type differs from it. */
  predicate Sticks(frame: Frame, oks: seq<bool>, nal: Nal, i: nat)
    requires |oks| == |frame|
  {
    && i < |frame| && frame[i].nal == nal && oks[i]
    && forall k :: i < k < |frame| && frame[k].nal == nal ==> frame[k].data == frame[i].data
  }

  /** A later pack of the type carries the data and can be stored. */
  predicate ComesBack(frame: Frame, oks: seq<bool>, nal: Nal, i: nat, data: seq<int>)
    requires |oks| == |frame|
  {
    exists k :: i < k < |frame| && frame[k].nal == nal && frame[k].data == data && oks[k]
  }

  /** The packs of one type put the parameter set back that was cached: a pack
      that differs from it is followed by a copy of it that can be stored; with
      none cached, none sticks. */
  predicate Restores(cached: Option<seq<int>>, frame: Frame, oks: seq<bool>, nal: Nal)
    requires |oks| == |frame|
  {
    match cached
    case Some(data) =>
      forall i :: 0 <= i < |frame| && frame[i].nal == nal && frame[i].data != data
                  ==> ComesBack(frame, oks, nal, i, data)
    case None => forall i :: 0 <= i < |frame| ==> !Sticks(frame, oks, nal, i)
  }

  /** On a skipped frame the two agree if and only if it holds no IDR and its
      packs put both cached parameter sets back. */
  lemma SkippedFrame(c: Cache, frame: Frame, oks: seq<bool>)
    requires |oks| == |frame| && WellSized(c.sps) && WellSized(c.pps)
    requires c.gotExtradata && frame != [] && frame[0].nal != Sps
    ensures View(Fast(c, frame, oks)) == View(Full(c, frame, oks))
       <==> !Holds(frame, Idr) && Restores(c.sps.data, frame, oks, Sps) && Restores(c.pps.data, frame, oks, Pps)
  {
    hide Restores, Holds, InspectPacks, StoreAll;
    InspectedApart(c, frame, oks);
    StoredBack(c.sps, frame, oks, Sps);
    StoredBack(c.pps, frame, oks, Pps);
  }

  /** One parameter set after the packs of its type. */
  function StoreAll(p: Param, frame: Frame, oks: seq<bool>, nal: Nal): Param
    requires |oks| == |frame|
  {
    if frame == [] then p
    else
      var n := |frame| - 1;
      var q := StoreAll(p, frame[..n], oks[..n], nal);
      if frame[n].nal == nal then Store(q, frame[n].data, oks[n]) else q
  }

  lemma {:induction false} InspectedApart(c: Cache, frame: Frame, oks: seq<bool>)
    requires |oks| == |frame|
    ensures InspectPacks(c, frame, oks)
         == Cache(StoreAll(c.sps, frame, oks, Sps), StoreAll(c.pps, frame, oks, Pps), c.gotExtradata)
  {
    hide Store;
    if frame != [] {
      InspectedApart(c, frame[..|frame| - 1], oks[..|frame| - 1]);
    }
  }

  lemma {:induction false} StoredBack(p: Param, frame: Frame, oks: seq<bool>, nal: Nal)
    requires |oks| == |frame| && WellSized(p)
    ensures StoreAll(p, frame, oks, nal).data == p.data <==> Restores(p.data, frame, oks, nal)
    ensures WellSized(StoreAll(p, frame, oks, nal))
  {
    match p.data
    case Some(data) => StoredBackSome(p, frame, oks, nal, data);
    case None => StoredBackNone(p, frame, oks, nal);
  }

  lemma {:induction false} StoredBackSome(p: Param, frame: Frame, oks: seq<bool>, nal: Nal, data: seq<int>)
    requires |oks| == |frame| && WellSized(p) && p.data == Some(data)
    ensures StoreAll(p, frame, oks, nal).data == Some(data) <==> Restores(Some(data), frame, oks, nal)
    ensures WellSized(StoreAll(p, frame, oks, nal))
  {
    hide ComesBack;
    if frame != [] {
      var n := |frame| - 1;
      StoredBackSome(p, frame[..n], oks[..n], nal, data);
      forall i | 0 <= i < n
        ensures frame[..n][i] == frame[i]
        ensures ComesBack(frame, oks, nal, i, data)
           <==> ComesBack(frame[..n], oks[..n], nal, i, data)
                || (frame[n].nal == nal && frame[n].data == data && oks[n])
      {
        ComesBackNext(frame, oks, nal, i, data);
      }
      NeverBack(frame, oks, nal, n, data);
    }
  }

  lemma NeverBack(frame: Frame, oks: seq<bool>, nal: Nal, n: nat, data: seq<int>)
    requires |oks| == |frame| == n + 1
    ensures !ComesBack(frame, oks, nal, n, data)
  {
  }

  lemma ComesBackNext(frame: Frame, oks: seq<bool>, nal: Nal, i: nat, data: seq<int>)
    requires |oks| == |frame| && i < |frame| - 1
    ensures var n := |frame| - 1;
            ComesBack(frame, oks, nal, i, data)
            <==> ComesBack(frame[..n], oks[..n], nal, i, data)
                 || (frame[n].nal == nal && frame[n].data == data && oks[n])
  {
    var n := |frame| - 1;
    if ComesBack(frame, oks, nal, i, data) {
      var k :| i < k < |frame| && frame[k].nal == nal && frame[k].data == data && oks[k];
      assert k < n ==> frame[..n][k] == frame[k] && oks[..n][k];
    }
    if ComesBack(frame[..n], oks[..n], nal, i, data) {
      var k :| i < k < n && frame[..n][k].nal == nal && frame[..n][k].data == data && oks[..n][k];
      assert frame[k] == frame[..n][k] && oks[k];
    }
  }

  lemma {:induction false} StoredBackNone(p: Param, frame: Frame, oks: seq<bool>, nal: Nal)
    requires |oks| == |frame| && p.data == None
    ensures var data := StoreAll(p, frame, oks, nal).data;
            && (data.Some? ==> exists i :: Sticks(frame, oks, nal, i))
            && (forall i :: 0 <= i < |frame| && Sticks(frame, oks, nal, i) ==> data == Some(frame[i].data))
    ensures WellSized(StoreAll(p, frame, oks, nal))
  {
    hide Sticks;
    if frame != [] {
      var n := |frame| - 1;
      var before := StoreAll(p, frame[..n], oks[..n], nal).data;
      StoredBackNone(p, frame[..n], oks[..n], nal);
      forall i: nat | i <= n
        ensures Sticks(frame, oks, nal, i)
           <==> if i == n then frame[n].nal == nal && oks[n]
                else Sticks(frame[..n], oks[..n], nal, i)
                     && (frame[n].nal == nal ==> frame[n].data == frame[i].data)
      {
        SticksNext(frame, oks, nal, i);
      }
      if before.Some? {
        var i: nat :| Sticks(frame[..n], oks[..n], nal, i);
        SticksInside(frame[..n], oks[..n], nal, i);
        assert Some(frame[..n][i].data) == before;
        assert StoreAll(p, frame, oks, nal).data == before ==> Sticks(frame, oks, nal, i) || Sticks(frame, oks, nal, n);
      }
    }
  }

  lemma SticksInside(frame: Frame, oks: seq<bool>, nal: Nal, i: nat)
    requires |oks| == |frame| && Sticks(frame, oks, nal, i)
    ensures i < |frame|
  {
  }

  lemma SticksNext(frame: Frame, oks: seq<bool>, nal: Nal, i: nat)
    requires |oks| == |frame| && i < |frame|
    ensures var n := |frame| - 1;
            Sticks(frame, oks, nal, i)
            <==> if i == n then frame[n].nal == nal && oks[n]
                 else Sticks(frame[..n], oks[..n], nal, i)
                      && (frame[n].nal == nal ==> frame[n].data == frame[i].data)
  {
    var n := |frame| - 1;
    if i < n && Sticks(frame[..n], oks[..n], nal, i) && (frame[n].nal == nal ==> frame[n].data == frame[i].data) {
      forall k | i < k < |frame| && frame[k].nal == nal
        ensures frame[k].data == frame[i].data
      {
        assert k < n ==> frame[..n][k] == frame[k];
      }
    }
  }

  /** Every cache a run reaches is well sized. */
  lemma {:induction false} RunWellSized(frames: seq<Frame>, oks: seq<seq<bool>>)
    requires |oks| == |frames| && forall i :: 0 <= i < |frames| ==> |oks[i]| == |frames[i]|
    ensures var c := RunFast(frames, oks).0; WellSized(c.sps) && WellSized(c.pps)
  {
    hide Skips, InspectPacks, StoreAll, WellSized;
    if frames == [] {
      EmptyWellSized();
    } else {
      var n := |frames| - 1;
      RunWellSized(frames[..n], oks[..n]);
      var c := RunFast(frames[..n], oks[..n]).0;
      InspectedApart(c, frames[n], oks[n]);
      StoredBack(c.sps, frames[n], oks[n], Sps);
      StoredBack(c.pps, frames[n], oks[n], Pps);
    }
  }

  lemma EmptyWellSized()
    ensures WellSized(EMPTY.sps) && WellSized(EMPTY.pps)
  {
  }

  /** The same after any run: what the fast path loses by skipping the next
      frame, whatever led up to it. */
  lemma SkippedInRun(frames: seq<Frame>, mallocs: seq<seq<bool>>, frame: Frame, oks: seq<bool>)
    requires |mallocs| == |frames| && forall i :: 0 <= i < |frames| ==> |mallocs[i]| == |frames[i]|
    requires |oks| == |frame| && RunFast(frames, mallocs).0.gotExtradata && frame != [] && frame[0].nal != Sps
    ensures var c := RunFast(frames, mallocs).0;
            View(Fast(c, frame, oks)) == View(Full(c, frame, oks))
            <==> && !Holds(frame, Idr)
                 && Restores(c.sps.data, frame, oks, Sps) && Restores(c.pps.data, frame, oks, Pps)
  {
    hide RunFast, Restores, Fast, Full, View;
    RunWellSized(frames, mallocs);
    SkippedFrame(RunFast(frames, mallocs).0, frame, oks);
  }

  // ---- what is cached ----

  /** The last parameter set of a frame that is stored is the one cached, unless
      a later one of its type differs. */
  lemma {:induction false} StoredSticks(p: Param, frame: Frame, oks: seq<bool>, nal: Nal, i: nat)
    requires |oks| == |frame| && WellSized(p) && Sticks(frame, oks, nal, i)
    ensures StoreAll(p, frame, oks, nal).data == Some(frame[i].data)
    ensures WellSized(StoreAll(p, frame, oks, nal))
  {
    hide Sticks;
    SticksInside(frame, oks, nal, i);
    var n := |frame| - 1;
    SticksNext(frame, oks, nal, i);
    StoredBack(p, frame[..n], oks[..n], nal);
    if i < n {
      StoredSticks(p, frame[..n], oks[..n], nal, i);
    }
  }

  predicate BothCached(c: Cache) {
    c.sps.data.Some? && c.pps.data.Some?
  }

  ghost predicate EverBoth(frames: seq<Frame>, oks: seq<seq<bool>>)
    requires |oks| == |frames| && forall i :: 0 <= i < |frames| ==> |oks[i]| == |frames[i]|
  {
    exists k :: 0 <= k <= |frames| && BothCached(RunFast(frames[..k], oks[..k]).0)
  }

  lemma EverBothNext(frames: seq<Frame>, oks: seq<seq<bool>>)
    requires |oks| == |frames| && forall i :: 0 <= i < |frames| ==> |oks[i]| == |frames[i]|
    requires frames != []
    ensures var n := |frames| - 1;
      EverBoth(frames, oks) <==> EverBoth(frames[..n], oks[..n]) || BothCached(RunFast(frames, oks).0)
  {
    hide RunFast, BothCached;
    var n := |frames| - 1;
    assert forall k :: 0 <= k <= n ==> frames[..n][..k] == frames[..k] && oks[..n][..k] == oks[..k];
    assert frames[..n + 1] == frames && oks[..n + 1] == oks;
  }

  /** The recorder has its extradata from the first frame after which both
      parameter sets are cached, and keeps it. */
  lemma {:induction false} GotWhenBoth(frames: seq<Frame>, oks: seq<seq<bool>>)
    requires |oks| == |frames| && forall i :: 0 <= i < |frames| ==> |oks[i]| == |frames[i]|
    ensures RunFast(frames, oks).0.gotExtradata <==> EverBoth(frames, oks)
  {
    if frames == [] {
      assert forall k :: 0 <= k <= |frames| ==> frames[..k] == [] && oks[..k] == [];
    } else {
      hide InspectPacks, EverBoth;
      var n := |frames| - 1;
      GotWhenBoth(frames[..n], oks[..n]);
      EverBothNext(frames, oks);
      InspectedApart(RunFast(frames[..n], oks[..n]).0, frames[n], oks[n]);
    }
  }
}
