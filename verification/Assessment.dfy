/** The assessment of one observation: its passes over the samples, its table of checks, and what passing means. */
module Assessment {
  import opened Telemetry
  import opened Windows
  import opened Rates
  import opened Percentile
  import opened Checks

  // ---------- delivery

  function DeliveryChecks(minFps: int, sourceFps: int, cadencePermille: int, target: nat): CheckTable {
    [("visible_delivery_fps", minFps >= MIN_VISIBLE_DELIVERY_FPS),
     ("five_tab_source_progress", sourceFps > 0),
     ("supported_target_fps", target >= MIN_SUPPORTED_TARGET_FPS),
     ("source_cadence_ratio", cadencePermille >= MIN_CADENCE_RATIO_PERMILLE)]
  }

  /** Every interval on its own: 27 frames a second on screen, every tab alive, nine tenths of what could be shown. */
  predicate Delivered(o: Observation) {
    && AllMeasurable(o.samples, o.identity.tabIds) && o.samples != []
    && var n := |o.samples| - 1;
       && Delivers(o.samples, n, 27) && TabsProgress(o.samples, o.identity.tabIds, n, 1)
       && CadenceHolds(o.samples, o.identity.tabIds, n, o.identity.targetFps)
  }

  /** An admitted stream always has an admitted target. */
  ghost function DeliveryCriteria(o: Observation): CheckTable
    requires o.samples != [] && AllMeasurable(o.samples, o.identity.tabIds)
  {
    var n, ids, target := |o.samples| - 1, o.identity.tabIds, o.identity.targetFps;
    [("visible_delivery_fps", Delivers(o.samples, n, 27)),
     ("five_tab_source_progress", n > 0 && TabsProgress(o.samples, ids, n, 1)), ("supported_target_fps", true),
     ("source_cadence_ratio",
      (exists k :: 0 < k <= n && VisibleAt(o.samples, k)) && CadenceHolds(o.samples, ids, n, target))]
  }

  lemma DeliveryMeaning(o: Observation)
    requires Sound(o) && o.samples != [] && AllMeasurable(o.samples, o.identity.tabIds)
    ensures var n, ids, target := |o.samples| - 1, o.identity.tabIds, o.identity.targetFps;
      AllMet(DeliveryChecks(FloorOfMin(FrameRates(o.samples, ids, n), MAX_FPS),
        FloorOfMin(SourceRates(o.samples, ids, n), MAX_FPS),
                            CadencePermille(Ratios(o.samples, ids, target, n)), target))
      <==> Delivered(o)
    ensures var n, ids, target := |o.samples| - 1, o.identity.tabIds, o.identity.targetFps;
      DeliveryChecks(FloorOfMin(FrameRates(o.samples, ids, n), MAX_FPS),
        FloorOfMin(SourceRates(o.samples, ids, n), MAX_FPS), CadencePermille(Ratios(o.samples, ids, target, n)), target)
      == DeliveryCriteria(o)
  {
    hide FrameRates, SourceRates, Ratios, FloorOfMin, CadencePermille, VisibleAt, Coherent, Measurable, CadenceHolds,
      TabsProgress;
    var n, ids, target := |o.samples| - 1, o.identity.tabIds, o.identity.targetFps;
    var frames, sources, ratios := FrameRates(o.samples, ids, n), SourceRates(o.samples, ids, n),
      Ratios(o.samples, ids, target, n);
    FrameRatesMeaning(o.samples, ids, n, 27);
    SourceRatesMeaning(o.samples, ids, n, 1);
    RatiosMeaning(o.samples, ids, target, n);
    FloorOfMinAtLeast(frames, MAX_FPS, 27);
    FloorOfMinAtLeast(sources, MAX_FPS, 1);
    CadenceAtLeast(ratios);
    var c := DeliveryChecks(FloorOfMin(frames, MAX_FPS), FloorOfMin(sources, MAX_FPS), CadencePermille(ratios), target);
    assert AllMet(c) <==> c[0].1 && c[1].1 && c[2].1 && c[3].1;
    assert c == DeliveryCriteria(o);
  }

  // ---------- pointer and stalls

  function MaxStall(samples: seq<Sample>): nat {
    if samples == [] then 0
    else
      var n := |samples| - 1;
      var before := MaxStall(samples[..n]);
      if samples[n].visible && samples[n].maxFrameGapMs > before then samples[n].maxFrameGapMs else before
  }

  lemma {:induction false} MaxStallMeaning(samples: seq<Sample>, limit: nat)
    ensures MaxStall(samples) <= limit <==>
      forall k :: 0 <= k < |samples| && samples[k].visible ==> samples[k].maxFrameGapMs <= limit
  {
    if samples == [] {
    } else {
      MaxStallMeaning(samples[..|samples| - 1], limit);
    }
  }

  function PointerChecks(o: Observation, stationaryMs: int): CheckTable
    requires o.samples != []
  {
    [("max_stall_ms", MaxStall(o.samples) <= 500),
     ("pointer_updates", o.samples[|o.samples| - 1].pointerUpdates - o.samples[0].pointerUpdates > 0),
     ("stationary_pointer_window", stationaryMs >= STATIONARY_POINTER_WINDOW_MS)]
  }

  /** A run of this kind lasting at least so long. */
  ghost predicate HasRun(samples: seq<Sample>, kind: Kind, ms: int) {
    exists i, j :: IsRun(samples, kind, i, j) && Span(samples, i, j) >= ms
  }

  ghost predicate Pointed(o: Observation)
    requires o.samples != []
  {
    && (forall k :: 0 <= k < |o.samples| && o.samples[k].visible ==> o.samples[k].maxFrameGapMs <= 500)
    && o.samples[0].pointerUpdates < o.samples[|o.samples| - 1].pointerUpdates
    && HasRun(o.samples, Stationary, STATIONARY_POINTER_WINDOW_MS)
  }

  ghost function PointerCriteria(o: Observation): CheckTable
    requires o.samples != []
  {
    [("max_stall_ms",
      forall k :: 0 <= k < |o.samples| && o.samples[k].visible ==> o.samples[k].maxFrameGapMs <= 500),
     ("pointer_updates", o.samples[0].pointerUpdates < o.samples[|o.samples| - 1].pointerUpdates),
     ("stationary_pointer_window", HasRun(o.samples, Stationary, STATIONARY_POINTER_WINDOW_MS))]
  }

  lemma LongestMeaning(samples: seq<Sample>, kind: Kind, ms: int)
    requires Increasing(samples) && samples != []
    ensures Longest(samples, kind, |samples| - 1) >= ms <==> HasRun(samples, kind, ms)
  {
    hide IsRun, Longest;
    LongestIsTheMaximum(samples, kind);
  }

  lemma PointerMeaning(o: Observation)
    requires o.samples != [] && Increasing(o.samples)
    ensures AllMet(PointerChecks(o, Longest(o.samples, Stationary, |o.samples| - 1))) <==> Pointed(o)
    ensures PointerChecks(o, Longest(o.samples, Stationary, |o.samples| - 1)) == PointerCriteria(o)
  {
    hide MaxStall, HasRun, Longest, Increasing;
    MaxStallMeaning(o.samples, 500);
    LongestMeaning(o.samples, Stationary, STATIONARY_POINTER_WINDOW_MS);
    var c := PointerChecks(o, Longest(o.samples, Stationary, |o.samples| - 1));
    assert AllMet(c) <==> c[0].1 && c[1].1 && c[2].1;
  }

  // ---------- latencies

  function NavigationLatencies(samples: seq<Sample>): seq<nat> {
    if samples == [] then []
    else NavigationLatencies(samples[..|samples| - 1]) + samples[|samples| - 1].navigationMs
  }

  function SessionLatencies(samples: seq<Sample>): seq<nat> {
    if samples == [] then []
    else SessionLatencies(samples[..|samples| - 1]) + samples[|samples| - 1].sessionMs
  }

  function Greatest(values: seq<nat>): nat {
    if values == [] then 0
    else
      var n := |values| - 1;
      if Greatest(values[..n]) > values[n] then Greatest(values[..n]) else values[n]
  }

  lemma {:induction false} GreatestIsGreatest(values: seq<nat>, limit: nat)
    ensures Greatest(values) <= limit <==> forall i :: 0 <= i < |values| ==> values[i] <= limit
  {
    if values == [] {
    } else {
      GreatestIsGreatest(values[..|values| - 1], limit);
    }
  }

  function LatencyChecks(coverage: string, name: string, values: seq<nat>): CheckTable {
    [(coverage, |values| >= MIN_LATENCY_SAMPLES),
     (name + "_p95_ms", 0 < Percentile95(values) <= LATENCY_P95_LIMIT_MS),
     (name + "_max_ms", 0 < Greatest(values) <= LATENCY_MAX_LIMIT_MS)]
  }

  /** Enough latencies, 95 in 100 of them within the first limit and all of them within the second. */
  predicate Responsive(values: seq<nat>) {
    && |values| >= MIN_LATENCY_SAMPLES && 20 * AtMost(values, LATENCY_P95_LIMIT_MS) >= 19 * |values|
    && forall i :: 0 <= i < |values| ==> values[i] <= LATENCY_MAX_LIMIT_MS
  }

  /** Without any value neither limit is met. */
  function LatencyCriteria(coverage: string, name: string, values: seq<nat>): CheckTable {
    [(coverage, |values| >= 15),
     (name + "_p95_ms", values != [] && 20 * AtMost(values, 100) >= 19 * |values|),
     (name + "_max_ms", values != [] && forall i :: 0 <= i < |values| ==> values[i] <= 250)]
  }

  lemma LatencyMeaning(coverage: string, name: string, values: seq<nat>)
    requires forall v <- values :: v >= 1
    ensures AllMet(LatencyChecks(coverage, name, values)) <==> Responsive(values)
    ensures LatencyChecks(coverage, name, values) == LatencyCriteria(coverage, name, values)
  {
    NoLatencies();
    hide Percentile95, AtMost, Greatest;
    var c := LatencyChecks(coverage, name, values);
    GreatestIsGreatest(values, LATENCY_MAX_LIMIT_MS);
    GreatestIsGreatest(values, 0);
    if values != [] {
      PercentileMeaning(values, LATENCY_P95_LIMIT_MS);
      assert values[0] in values;
    }
    assert AllMet(c) <==> c[0].1 && c[1].1 && c[2].1;
  }

  lemma NoLatencies()
    ensures Percentile95([]) == 0 && Greatest([]) == 0
  {}

  lemma {:induction false} LatenciesArePositive(samples: seq<Sample>)
    requires forall k :: 0 <= k < |samples| ==>
      GoodLatencies(samples[k].navigationMs) && GoodLatencies(samples[k].sessionMs)
    ensures forall v <- NavigationLatencies(samples) :: v >= 1
    ensures forall v <- SessionLatencies(samples) :: v >= 1
  {
    if samples == [] {
    } else {
      LatenciesArePositive(samples[..|samples| - 1]);
    }
  }

  // ---------- uploads and host load

  /** Uploads counted over the intervals that are visible at both ends. */
  function VisibleUploads(samples: seq<Sample>, k: nat): (int, int)
    requires k < |samples|
  {
    if k == 0 then (0, 0)
    else
      var (partial, rects) := VisibleUploads(samples, k - 1);
      var a, b := samples[k - 1], samples[k];
      if a.visible && b.visible
      then (partial + b.partialUploads - a.partialUploads, rects + b.partialRects - a.partialRects)
      else (partial, rects)
  }

  function CpuSamples(samples: seq<Sample>): nat {
    if samples == [] then 0
    else CpuSamples(samples[..|samples| - 1]) + if samples[|samples| - 1].cpu.Some? then 1 else 0
  }

  function GpuSamples(samples: seq<Sample>): nat {
    if samples == [] then 0
    else GpuSamples(samples[..|samples| - 1]) + if samples[|samples| - 1].gpu.Some? then 1 else 0
  }

  function LoadChecks(o: Observation): CheckTable
    requires o.samples != []
  {
    var (partial, rects) := VisibleUploads(o.samples, |o.samples| - 1);
    [("partial_uploads", partial > 0),
     ("partial_upload_rects", rects >= partial),
     ("host_process_cpu_coverage", CpuSamples(o.samples) * 1000 >= |o.samples| * MIN_HOST_LOAD_COVERAGE_PERMILLE),
     ("host_gpu_busy_coverage", GpuSamples(o.samples) * 1000 >= |o.samples| * MIN_HOST_LOAD_COVERAGE_PERMILLE)]
  }

  /** A partial upload was counted over the interval before sample k, which is visible at both ends. */
  predicate UploadsAt(samples: seq<Sample>, k: nat) {
    && 0 < k < |samples| && samples[k - 1].visible && samples[k].visible
    && samples[k - 1].partialUploads < samples[k].partialUploads
  }

  /**
    Some visible interval has a partial upload, the visible intervals together no fewer rectangles than uploads, and
    nine samples in ten have host figures.
  */
  ghost predicate Loaded(o: Observation)
    requires o.samples != []
  {
    && (exists k :: UploadsAt(o.samples, k))
    && VisibleUploads(o.samples, |o.samples| - 1).0 <= VisibleUploads(o.samples, |o.samples| - 1).1
    && 10 * CpuSamples(o.samples) >= 9 * |o.samples| && 10 * GpuSamples(o.samples) >= 9 * |o.samples|
  }

  ghost function LoadCriteria(o: Observation): CheckTable
    requires o.samples != []
  {
    var (partial, rects) := VisibleUploads(o.samples, |o.samples| - 1);
    [("partial_uploads", exists k :: UploadsAt(o.samples, k)), ("partial_upload_rects", partial <= rects),
     ("host_process_cpu_coverage", 10 * CpuSamples(o.samples) >= 9 * |o.samples|),
     ("host_gpu_busy_coverage", 10 * GpuSamples(o.samples) >= 9 * |o.samples|)]
  }

  /** No upload counter goes back, so the sum is positive exactly if one interval counts. */
  lemma {:induction false} UploadsMeaning(o: Observation, n: nat)
    requires Sound(o) && n < |o.samples|
    ensures VisibleUploads(o.samples, n).0 >= 0
    ensures VisibleUploads(o.samples, n).0 > 0 <==> exists k :: 0 < k <= n && UploadsAt(o.samples, k)
  {
    hide ValidSample, GoodIdentity, NeverBack;
    if n == 0 {
    } else {
      UploadsMeaning(o, n - 1);
      assert Follows(o.samples[n - 1], o.samples[n], o.identity.tabIds);
      if VisibleUploads(o.samples, n).0 > 0 && VisibleUploads(o.samples, n - 1).0 == 0 {
        assert UploadsAt(o.samples, n);
      }
    }
  }

  lemma LoadMeaning(o: Observation)
    requires Sound(o) && o.samples != []
    ensures AllMet(LoadChecks(o)) <==> Loaded(o)
    ensures LoadChecks(o) == LoadCriteria(o)
  {
    hide VisibleUploads, CpuSamples, GpuSamples, Sound;
    UploadsMeaning(o, |o.samples| - 1);
    assert (exists k :: UploadsAt(o.samples, k)) <==> exists k :: 0 < k <= |o.samples| - 1 && UploadsAt(o.samples, k);
    var c := LoadChecks(o);
    assert AllMet(c) <==> c[0].1 && c[1].1 && c[2].1 && c[3].1;
  }

  // ---------- hidden repainting

  function ActiveFraction(b: HiddenBehavior): real {
    if b.intervals == 0 then 1.0 else b.activeIntervals as real / b.intervals as real
  }

  function HiddenChecks(b: HiddenBehavior): CheckTable {
    [("hidden_observation", b.observedMs >= HIDDEN_QUIESCENT_WINDOW_MS),
     ("hidden_repaint_burst", b.longestActiveMs <= MAX_HIDDEN_REPAINT_BURST_MS),
     ("hidden_repaint_frequency", ActiveFraction(b) <= MAX_HIDDEN_REPAINT_ACTIVE_FRACTION),
     ("hidden_repaint_quiescence", b.longestQuiescentMs >= HIDDEN_QUIESCENT_WINDOW_MS)]
  }

  /** No burst over 20 s, at most one interval in twenty active, and five minutes without a single repaint. */
  ghost predicate QuietWhenHidden(o: Observation)
    requires o.samples != []
  {
    var b := BehaviorOf(o.samples);
    && b.observedMs >= HIDDEN_QUIESCENT_WINDOW_MS && b.intervals > 0 && 20 * b.activeIntervals <= b.intervals
    && !HasRun(o.samples, Active, MAX_HIDDEN_REPAINT_BURST_MS + 1)
    && HasRun(o.samples, Quiescent, HIDDEN_QUIESCENT_WINDOW_MS)
  }

  ghost function HiddenCriteria(o: Observation): CheckTable
    requires o.samples != []
  {
    var b := BehaviorOf(o.samples);
    [("hidden_observation", b.observedMs >= 300_000),
     ("hidden_repaint_burst", !HasRun(o.samples, Active, 20_001)),
     ("hidden_repaint_frequency", b.intervals > 0 && 20 * b.activeIntervals <= b.intervals),
     ("hidden_repaint_quiescence", HasRun(o.samples, Quiescent, 300_000))]
  }

  lemma FractionMeaning(b: HiddenBehavior)
    ensures ActiveFraction(b) <= 0.05 <==> b.intervals > 0 && 20 * b.activeIntervals <= b.intervals
  {
    if b.intervals > 0 {
      var x, y := b.activeIntervals as real, b.intervals as real;
      QuotientAtLeast(-x, y, -0.05);
      QuotientNegates(x, y);
    }
  }

  lemma QuotientNegates(x: real, y: real)
    requires y > 0.0
    ensures -x / y == -(x / y)
  {
    var q := x / y;
    assert q * y == x;
    assert -q * y == -x;
  }

  lemma HiddenMeaning(o: Observation)
    requires o.samples != [] && Increasing(o.samples)
    ensures AllMet(HiddenChecks(BehaviorOf(o.samples))) <==> QuietWhenHidden(o)
    ensures HiddenChecks(BehaviorOf(o.samples)) == HiddenCriteria(o)
  {
    hide HasRun, Longest, Increasing, Sums, ActiveFraction;
    var b := BehaviorOf(o.samples);
    FractionMeaning(b);
    LongestMeaning(o.samples, Active, MAX_HIDDEN_REPAINT_BURST_MS + 1);
    LongestMeaning(o.samples, Quiescent, HIDDEN_QUIESCENT_WINDOW_MS);
    var c := HiddenChecks(b);
    assert AllMet(c) <==> c[0].1 && c[1].1 && c[2].1 && c[3].1;
  }

  // ---------- connection

  function ConnectionChecks(o: Observation, recovered: bool): CheckTable
    requires o.samples != []
  {
    [("reconnects", o.samples[|o.samples| - 1].reconnects - o.samples[0].reconnects > 0),
     ("recovery_observed", recovered),
     ("connection_state", o.samples[|o.samples| - 1].state.Connected?
       && forall s <- o.samples :: !s.state.Failed? && !s.state.Unavailable?)]
  }

  ghost predicate Reconnected(o: Observation)
    requires o.samples != []
  {
    && o.samples[0].reconnects < o.samples[|o.samples| - 1].reconnects
    && (exists i, j, k :: Recovered(o.samples, i, j, k))
    && o.samples[|o.samples| - 1].state.Connected?
       && (forall s <- o.samples :: s.state.Connected? || s.state.Reconnecting?)
  }

  ghost function ConnectionCriteria(o: Observation): CheckTable
    requires o.samples != []
  {
    [("reconnects", o.samples[0].reconnects < o.samples[|o.samples| - 1].reconnects),
     ("recovery_observed", exists i, j, k :: Recovered(o.samples, i, j, k)),
     ("connection_state", o.samples[|o.samples| - 1].state.Connected?
       && forall s <- o.samples :: s.state.Connected? || s.state.Reconnecting?)]
  }

  lemma ConnectionMeaning(o: Observation, recovered: bool)
    requires o.samples != [] && (recovered <==> exists i, j, k :: Recovered(o.samples, i, j, k))
    ensures AllMet(ConnectionChecks(o, recovered)) <==> Reconnected(o)
    ensures ConnectionChecks(o, recovered) == ConnectionCriteria(o)
  {
    hide Recovered;
    var c := ConnectionChecks(o, recovered);
    assert AllMet(c) <==> c[0].1 && c[1].1 && c[2].1;
  }

  // ---------- the assessment

  /** All criteria, stated over intervals, ranges and samples instead of floors, minima and run variables. */
  ghost predicate Meets(o: Observation) {
    && o.samples != [] && o.receipts != [] && TabsPresent(o)
    && Timely(o) && FullSize(o) && Delivered(o) && Pointed(o)
    && Responsive(NavigationLatencies(o.samples)) && Responsive(SessionLatencies(o.samples))
    && Loaded(o) && QuietWhenHidden(o) && Reconnected(o)
  }

  /** The whole table of an observation with samples, in its order. */
  function TableOf(o: Observation): CheckTable
    requires o.samples != [] && o.receipts != [] && TabsPresent(o) && AllMeasurable(o.samples, o.identity.tabIds)
  {
    var n, ids, target := |o.samples| - 1, o.identity.tabIds, o.identity.targetFps;
    TimeChecks(o) + SizeChecks(o)
    + (DeliveryChecks(FloorOfMin(FrameRates(o.samples, ids, n), MAX_FPS),
      FloorOfMin(SourceRates(o.samples, ids, n), MAX_FPS),
                      CadencePermille(Ratios(o.samples, ids, target, n)), target)
       + PointerChecks(o, Longest(o.samples, Stationary, n)))
    + (LatencyChecks("navigation_latency_coverage", "navigation", NavigationLatencies(o.samples))
      + LatencyChecks("session_latency_coverage", "session_latency", SessionLatencies(o.samples))
       + (LoadChecks(o) + HiddenChecks(BehaviorOf(o.samples))))
    + ConnectionChecks(o, HasRecovered(o.samples, |o.samples|))
  }

  /** Some sample before the n-th ends a recovery. */
  predicate HasRecovered(samples: seq<Sample>, n: nat) {
    exists k, j, i :: 0 <= i < j < k < n && n <= |samples| && Recovered(samples, i, j, k)
  }

  /** The same table with each name beside what it stands for. */
  ghost function Criteria(o: Observation): CheckTable
    requires o.samples != [] && o.receipts != [] && TabsPresent(o) && AllMeasurable(o.samples, o.identity.tabIds)
  {
    TimeCriteria(o) + SizeCriteria(o) + (DeliveryCriteria(o) + PointerCriteria(o))
    + (LatencyCriteria("navigation_latency_coverage", "navigation", NavigationLatencies(o.samples))
       + LatencyCriteria("session_latency_coverage", "session_latency", SessionLatencies(o.samples))
       + (LoadCriteria(o) + HiddenCriteria(o)))
    + ConnectionCriteria(o)
  }

  /** The table is met as a whole exactly if the criteria are. */
  lemma TableMeaning(o: Observation)
    requires Sound(o) && o.samples != []
    ensures TabsPresent(o) && AllMeasurable(o.samples, o.identity.tabIds)
    ensures AllMet(TableOf(o)) <==> Meets(o)
    ensures TableOf(o) == Criteria(o)
  {
    hide Timely, FullSize, Delivered, Pointed, Responsive, Loaded, QuietWhenHidden, AllMet, Coherent, Recovered;
    hide TimeChecks, SizeChecks, DeliveryChecks, PointerChecks, LatencyChecks, LoadChecks, HiddenChecks,
      ConnectionChecks;
    hide AllMeasurable, Increasing, RepaintsGrow, FrameRates, SourceRates, Ratios, FloorOfMin, CadencePermille, Longest,
      BehaviorOf;
    SoundSamples(o);
    SizeMeaning(o);
    var n, ids, target := |o.samples| - 1, o.identity.tabIds, o.identity.targetFps;
    var delivery := DeliveryChecks(FloorOfMin(FrameRates(o.samples, ids, n), MAX_FPS),
      FloorOfMin(SourceRates(o.samples, ids, n), MAX_FPS),
                                   CadencePermille(Ratios(o.samples, ids, target, n)), target);
    var pointer := PointerChecks(o, Longest(o.samples, Stationary, n));
    var navigation := LatencyChecks("navigation_latency_coverage", "navigation", NavigationLatencies(o.samples));
    var session := LatencyChecks("session_latency_coverage", "session_latency", SessionLatencies(o.samples));
    var load, hidden := LoadChecks(o), HiddenChecks(BehaviorOf(o.samples));
    var first, second, third := TimeChecks(o) + SizeChecks(o), delivery + pointer, navigation + session
      + (load + hidden);
    AllMetAdds(first + second + third, ConnectionChecks(o, HasRecovered(o.samples, |o.samples|)));
    AllMetAdds(first + second, third);
    AllMetAdds(first, second);
    AllMetAdds(TimeChecks(o), SizeChecks(o));
    AllMetAdds(delivery, pointer);
    AllMetAdds(navigation + session, load + hidden);
    AllMetAdds(navigation, session);
    AllMetAdds(load, hidden);
    TimeMeaning(o);
    DeliveryMeaning(o);
    PointerMeaning(o);
    SoundLatencies(o);
    LatencyMeaning("navigation_latency_coverage", "navigation", NavigationLatencies(o.samples));
    LatencyMeaning("session_latency_coverage", "session_latency", SessionLatencies(o.samples));
    LoadMeaning(o);
    HiddenMeaning(o);
    RecoveryIsRecovery(o.samples);
    ConnectionMeaning(o, HasRecovered(o.samples, |o.samples|));
  }

  lemma RecoveryIsRecovery(samples: seq<Sample>)
    ensures HasRecovered(samples, |samples|) <==> exists i, j, k :: Recovered(samples, i, j, k)
  {}

  /**
    The names of the criteria that are not met: none exactly if all of them hold for the intervals, ranges and samples.
  */
  method Assess(o: Observation) returns (failures: seq<string>)
    requires Sound(o)
    ensures failures == [] <==> Meets(o)
    ensures o.samples == [] ==> failures == ["samples"]
    ensures o.samples != [] ==>
      TabsPresent(o) && AllMeasurable(o.samples, o.identity.tabIds) && failures == Failing(Criteria(o))
  {
    hide TimeChecks, SizeChecks, DeliveryChecks, PointerChecks, LatencyChecks, LoadChecks, HiddenChecks,
      ConnectionChecks;
    hide AllMeasurable, Increasing, RepaintsGrow, FrameRates, SourceRates, Ratios, FloorOfMin, CadencePermille, Longest;
    hide BehaviorOf, Failing, AllMet, Coherent, Recovered, HasRecovered;
    if o.samples == [] {
      return ["samples"];
    }
    SoundSamples(o);
    TableMeaning(o);
    NothingFails(TableOf(o));
    RecoveryIsRecovery(o.samples);
    var frames, sources, ratios := CollectRates(o.samples, o.identity.tabIds, o.identity.targetFps);
    var recovered := ReconnectRecovered(o.samples);
    var behavior := HiddenRepaintBehavior(o.samples);
    var stationary := LongestStationaryVisibleWindowMs(o.samples);
    var target := o.identity.targetFps;
    var checks := TimeChecks(o) + SizeChecks(o)
      + (DeliveryChecks(FloorOfMin(frames, MAX_FPS), FloorOfMin(sources, MAX_FPS), CadencePermille(ratios), target)
         + PointerChecks(o, stationary))
      + (LatencyChecks("navigation_latency_coverage", "navigation", NavigationLatencies(o.samples))
        + LatencyChecks("session_latency_coverage", "session_latency", SessionLatencies(o.samples))
         + (LoadChecks(o) + HiddenChecks(behavior)))
      + ConnectionChecks(o, recovered);
    failures := Failing(checks);
  }

  lemma SoundLatencies(o: Observation)
    requires Sound(o)
    ensures forall v <- NavigationLatencies(o.samples) :: v >= 1
    ensures forall v <- SessionLatencies(o.samples) :: v >= 1
  {
    forall k | 0 <= k < |o.samples|
      ensures GoodLatencies(o.samples[k].navigationMs) && GoodLatencies(o.samples[k].sessionMs)
    {
      assert ValidSample(o.samples[k], o.identity);
    }
    LatenciesArePositive(o.samples);
  }

  // ---------- what a pass implies

  lemma {:induction false} GapsAddUp(samples: seq<Sample>, k: nat)
    requires k < |samples| && NoLongGaps(samples)
    ensures Span(samples, 0, k) <= MAX_SAMPLE_GAP_MS * k
  {
    if k == 0 {
    } else {
      GapsAddUp(samples, k - 1);
      var s := samples[k];
    }
  }

  lemma StationaryIsVisible(o: Observation, k: nat)
    requires Sound(o) && 0 < k < |o.samples| && QualifiesAt(o.samples, Stationary, k - 1)
    ensures VisibleAt(o.samples, k)
  {
    assert ValidSample(o.samples[k], o.identity);
  }

  /** Frame rates of single intervals add up over a stationary run. */
  lemma {:induction false} RunDelivers(o: Observation, i: nat, j: nat, fps: int)
    requires Sound(o) && IsRun(o.samples, Stationary, i, j) && Delivers(o.samples, |o.samples| - 1, fps)
    ensures 1000 * (o.samples[j].framesReceived - o.samples[i].framesReceived) >= fps * Span(o.samples, i, j)
  {
    hide Sound, QualifiesAt, VisibleAt;
    if i == j {
    } else {
      var s := o.samples;
      RunDelivers(o, i, j - 1, fps);
      assert QualifiesAt(s, Stationary, j - 1);
      StationaryIsVisible(o, j);
      assert FramesAt(s, j, fps);
      assert fps * Span(s, i, j) == fps * Span(s, i, j - 1) + fps * Elapsed(s[j - 1], s[j]);
    }
  }

  lemma TabStep(samples: seq<Sample>, tabIds: seq<string>, id: string, k: nat)
    requires 0 < k < |samples| && TabsProgress(samples, tabIds, |samples| - 1, 1) && id in tabIds
    ensures id in samples[k - 1].tabs && id in samples[k].tabs
    ensures 1000 * Presented(samples[k - 1], samples[k], id) >= Span(samples, k - 1, k)
  {
    assert Measurable(samples, tabIds, k) && TabsAt(samples, tabIds, k, 1);
  }

  /** And so do the presented frames of one tab over the whole stream. */
  lemma {:induction false} TabPresents(samples: seq<Sample>, tabIds: seq<string>, id: string, k: nat)
    requires 0 < k < |samples| && TabsProgress(samples, tabIds, |samples| - 1, 1) && id in tabIds
    ensures id in samples[0].tabs && id in samples[k].tabs
    ensures 1000 * (samples[k].tabs[id].presented - samples[0].tabs[id].presented) >= Span(samples, 0, k)
  {
    hide TabsProgress;
    TabStep(samples, tabIds, id, k);
    if k == 1 {
    } else {
      TabPresents(samples, tabIds, id, k - 1);
    }
  }

  /** A stationary run of five minutes that delivered at least 8,100 frames. */
  predicate FiveMinutesDelivered(o: Observation, i: nat, j: nat) {
    && IsRun(o.samples, Stationary, i, j) && Span(o.samples, i, j) >= 300_000
    && o.samples[j].framesReceived - o.samples[i].framesReceived >= 8_100
  }

  /** Five hidden minutes with the same repaint counter at both ends. */
  predicate FiveMinutesQuiet(o: Observation, i: nat, j: nat) {
    && i < j < |o.samples| && Span(o.samples, i, j) >= 300_000 && o.samples[i].repaints == o.samples[j].repaints
    && forall k :: i <= k <= j ==> !o.samples[k].visible
  }

  lemma StationaryFrames(o: Observation) returns (i: nat, j: nat)
    requires Sound(o) && o.samples != [] && Pointed(o) && Delivered(o)
    ensures FiveMinutesDelivered(o, i, j)
  {
    hide QualifiesAt, Coherent, TabsProgress, CadenceHolds, Delivers, Measurable;
    i, j :| IsRun(o.samples, Stationary, i, j) && Span(o.samples, i, j) >= 300_000;
    RunDelivers(o, i, j, 27);
  }

  lemma QuietHidden(o: Observation) returns (i: nat, j: nat)
    requires Sound(o) && o.samples != [] && QuietWhenHidden(o)
    ensures FiveMinutesQuiet(o, i, j)
  {
    hide QualifiesAt, Coherent, Sums, Longest, BehaviorOf, Measurable;
    SoundSamples(o);
    i, j :| IsRun(o.samples, Quiescent, i, j) && Span(o.samples, i, j) >= 300_000;
    QuiescentEndsAreEnough(o.samples, i, j);
  }

  /**
    A passing assessment means: at least 91 samples over at least 900 s on both clocks; 8,100 frames delivered inside
    one stationary window; 900 frames presented by every single tab; five hidden minutes without a repaint.
  */
  lemma PassingMeans(o: Observation)
    requires Sound(o) && Meets(o)
    ensures |o.samples| >= 91 && EndpointSpan(o) >= 900_000 && (ReceiptSpan(o) * 1000.0).Floor >= 900_000
    ensures exists i, j :: FiveMinutesDelivered(o, i, j)
    ensures forall id <- o.identity.tabIds ::
      id in o.samples[0].tabs && id in o.samples[|o.samples| - 1].tabs
      && o.samples[|o.samples| - 1].tabs[id].presented - o.samples[0].tabs[id].presented >= 900
    ensures exists i, j :: FiveMinutesQuiet(o, i, j)
  {
    hide FiveMinutesDelivered, FiveMinutesQuiet, Pointed, QuietWhenHidden, Coherent, Delivers, CadenceHolds,
      TabsProgress;
    hide Responsive, Loaded, Reconnected, FullSize, Measurable;
    var n := |o.samples| - 1;
    GapsAddUp(o.samples, n);
    var i, j := StationaryFrames(o);
    var k, l := QuietHidden(o);
    forall id | id in o.identity.tabIds
      ensures id in o.samples[0].tabs && id in o.samples[n].tabs
      ensures o.samples[n].tabs[id].presented - o.samples[0].tabs[id].presented >= 900
    {
      TabPresents(o.samples, o.identity.tabIds, id, n);
    }
  }

  /** And no two neighbouring samples are further apart than 10 s on the endpoint's clock and 15 s on the collector's. */
  lemma PassingHasNoGap(o: Observation, k: nat)
    requires Sound(o) && Meets(o) && 0 < k < |o.samples|
    ensures o.samples[0].elapsedMs <= 10_000 && o.samples[k].elapsedMs - o.samples[k - 1].elapsedMs <= 10_000
    ensures o.receipts[k] - o.receipts[k - 1] <= 15.0
  {
    hide Pointed, QuietWhenHidden, Coherent, Delivered, Responsive, Loaded, Reconnected, FullSize;
    assert SteadilySampled(o);
    var sample, receipt := o.samples[k], o.receipts[k];
    assert Span(o.samples, k - 1, k) <= MAX_SAMPLE_GAP_MS;
  }
}
