/** Frame rates of the intervals, their minima, and the integer inequalities that floors of minima stand for. */
module Rates {
  import opened Telemetry

  /** `delta` events in `ms` milliseconds, per second. */
  function Rate(delta: int, ms: int): real
    requires ms > 0
  {
    delta as real * 1000.0 / ms as real
  }

  lemma RateAtLeast(delta: int, ms: int, rate: int)
    requires ms > 0
    ensures Rate(delta, ms) >= rate as real <==> 1000 * delta >= rate * ms
  {
    var x, y, r := 1000 * delta, ms, rate;
    assert x as real == delta as real * 1000.0;
    assert (r * y) as real == r as real * y as real;
    QuotientAtLeast(x as real, y as real, r as real);
  }

  lemma QuotientAtLeast(x: real, y: real, r: real)
    requires y > 0.0
    ensures x / y >= r <==> x >= r * y
  {
    var q := x / y;
    assert q * y == x;
    if q >= r {
      assert (q - r) * y >= 0.0;
    } else {
      assert (r - q) * y > 0.0;
    }
  }

  function MinReal(values: seq<real>): real
    requires values != []
  {
    var n := |values| - 1;
    if n == 0 then values[0]
    else
      var before := MinReal(values[..n]);
      if values[n] < before then values[n] else before
  }

  lemma {:induction false} MinAtLeast(values: seq<real>, r: real)
    requires values != []
    ensures MinReal(values) >= r <==> forall i :: 0 <= i < |values| ==> values[i] >= r
  {
    var n := |values| - 1;
    if n == 0 {
    } else {
      MinAtLeast(values[..n], r);
      assert forall i :: 0 <= i < n ==> values[..n][i] == values[i];
    }
  }

  /** `min(cap, floor(min(values)))`, and 0 for no values. */
  function FloorOfMin(values: seq<real>, cap: int): int {
    if values == [] then 0 else if MinReal(values).Floor < cap then MinReal(values).Floor else cap
  }

  lemma FloorOfMinAtLeast(values: seq<real>, cap: int, k: int)
    requires 0 < k <= cap
    ensures FloorOfMin(values, cap) >= k <==> values != [] && forall i :: 0 <= i < |values| ==> values[i] >= k as real
  {
    if values != [] {
      MinAtLeast(values, k as real);
    }
  }

  // ---------- the three lists of rates

  predicate SameTabVisible(a: Sample, b: Sample) {
    a.visible && b.visible && a.visibleTab == b.visibleTab && b.visibleTab.Some?
  }

  function Elapsed(a: Sample, b: Sample): int {
    b.elapsedMs - a.elapsedMs
  }

  function Frames(a: Sample, b: Sample): int {
    b.framesReceived - a.framesReceived
  }

  function Presented(a: Sample, b: Sample, id: string): int
    requires id in a.tabs && id in b.tabs
  {
    b.tabs[id].presented - a.tabs[id].presented
  }

  /** What the rates need of two neighbouring samples; admitted streams provide it. */
  predicate Measurable(samples: seq<Sample>, tabIds: seq<string>, k: int)
    requires 0 < k < |samples|
  {
    && samples[k - 1].elapsedMs < samples[k].elapsedMs
    && (forall id <- tabIds :: id in samples[k - 1].tabs && id in samples[k].tabs)
    && (forall i :: k - 1 <= i <= k && samples[i].visibleTab.Some? ==> samples[i].visibleTab.value in tabIds)
  }

  predicate AllMeasurable(samples: seq<Sample>, tabIds: seq<string>) {
    forall k {:trigger samples[k]} {:trigger Measurable(samples, tabIds, k)} ::
      0 < k < |samples| ==> Measurable(samples, tabIds, k)
  }

  function TabRates(a: Sample, b: Sample, tabIds: seq<string>): (r: seq<real>)
    requires a.elapsedMs < b.elapsedMs && forall id <- tabIds :: id in a.tabs && id in b.tabs
    ensures |r| == |tabIds|
    ensures forall j :: 0 <= j < |tabIds| ==>
      tabIds[j] in tabIds && r[j] == Rate(Presented(a, b, tabIds[j]), Elapsed(a, b))
  {
    seq(|tabIds|, j requires 0 <= j < |tabIds| => assert tabIds[j] in tabIds;
      Rate(Presented(a, b, tabIds[j]), Elapsed(a, b)))
  }

  /** Delivered over expected frames, where at most the supported target is expected; 0 if nothing is. */
  function Ratio(frames: real, source: real, target: int): real {
    var expected := if source < target as real then source else target as real;
    if expected > 0.0 then frames / expected else 0.0
  }

  function VisibleRatio(a: Sample, b: Sample, target: int): real
    requires a.elapsedMs < b.elapsedMs && SameTabVisible(a, b) && b.visibleTab.value in a.tabs
      && b.visibleTab.value in b.tabs
  {
    Ratio(Rate(Frames(a, b), Elapsed(a, b)), Rate(Presented(a, b, b.visibleTab.value), Elapsed(a, b)), target)
  }

  function FrameRates(samples: seq<Sample>, tabIds: seq<string>, k: nat): seq<real>
    requires AllMeasurable(samples, tabIds) && k < |samples|
  {
    if k == 0 then []
    else
      var a, b := samples[k - 1], samples[k];
      FrameRates(samples, tabIds, k - 1) + (if SameTabVisible(a, b) then [Rate(Frames(a, b), Elapsed(a, b))] else [])
  }

  function SourceRates(samples: seq<Sample>, tabIds: seq<string>, k: nat): seq<real>
    requires AllMeasurable(samples, tabIds) && k < |samples|
  {
    if k == 0 then [] else SourceRates(samples, tabIds, k - 1) + TabRates(samples[k - 1], samples[k], tabIds)
  }

  function Ratios(samples: seq<Sample>, tabIds: seq<string>, target: int, k: nat): seq<real>
    requires AllMeasurable(samples, tabIds) && k < |samples|
  {
    if k == 0 then [] else Ratios(samples, tabIds, target, k - 1) + RatioAt(samples, tabIds, target, k)
  }

  method CollectRates(samples: seq<Sample>, tabIds: seq<string>, target: int)
    returns (frames: seq<real>, sources: seq<real>, ratios: seq<real>)
    requires AllMeasurable(samples, tabIds) && samples != []
    ensures var k := |samples| - 1;
      && frames == FrameRates(samples, tabIds, k) && sources == SourceRates(samples, tabIds, k)
      && ratios == Ratios(samples, tabIds, target, k)
  {
    frames, sources, ratios := [], [], [];
    for k := 1 to |samples|
      invariant frames == FrameRates(samples, tabIds, k - 1) && sources == SourceRates(samples, tabIds, k - 1)
      invariant ratios == Ratios(samples, tabIds, target, k - 1)
    {
      assert Measurable(samples, tabIds, k);
      var previous, current := samples[k - 1], samples[k];
      var elapsed := current.elapsedMs - previous.elapsedMs;
      sources := sources + TabRates(previous, current, tabIds);
      if && previous.visible && current.visible && previous.visibleTab == current.visibleTab
         && current.visibleTab.Some?
      {
        var frameRate := Rate(Frames(previous, current), elapsed);
        var sourceRate := Rate(Presented(previous, current, current.visibleTab.value), elapsed);
        frames, ratios := frames + [frameRate], ratios + [Ratio(frameRate, sourceRate, target)];
      }
    }
  }

  // ---------- what a floor of a minimum says about every interval

  predicate VisibleAt(samples: seq<Sample>, k: int)
    requires 0 < k < |samples|
  {
    SameTabVisible(samples[k - 1], samples[k])
  }

  predicate FramesAt(samples: seq<Sample>, k: int, fps: int)
    requires 0 < k < |samples|
  {
    1000 * Frames(samples[k - 1], samples[k]) >= fps * Elapsed(samples[k - 1], samples[k])
  }

  predicate TabsAt(samples: seq<Sample>, tabIds: seq<string>, k: int, fps: int)
    requires 0 < k < |samples| && Measurable(samples, tabIds, k)
  {
    forall id <- tabIds :: 1000 * Presented(samples[k - 1], samples[k], id) >= fps * Elapsed(samples[k - 1], samples[k])
  }

  /** Some interval shows one tab throughout, and every such interval delivers at least `fps` frames a second. */
  predicate Delivers(samples: seq<Sample>, n: nat, fps: int)
    requires n < |samples|
  {
    && (exists k :: 0 < k <= n && VisibleAt(samples, k))
    && forall k :: 0 < k <= n && VisibleAt(samples, k) ==> FramesAt(samples, k, fps)
  }

  predicate AllAtLeast(values: seq<real>, r: real) {
    forall i :: 0 <= i < |values| ==> values[i] >= r
  }

  lemma AllAtLeastGrows(values: seq<real>, more: seq<real>, r: real)
    ensures AllAtLeast(values + more, r) <==> AllAtLeast(values, r) && AllAtLeast(more, r)
  {
    var all := values + more;
    assert forall i :: 0 <= i < |values| ==> all[i] == values[i];
    assert forall i :: 0 <= i < |more| ==> all[|values| + i] == more[i];
  }

  lemma {:induction false} FrameRatesMeaning(samples: seq<Sample>, tabIds: seq<string>, n: nat, fps: int)
    requires AllMeasurable(samples, tabIds) && n < |samples|
    ensures var rates := FrameRates(samples, tabIds, n);
      && (rates != [] <==> exists k :: 0 < k <= n && VisibleAt(samples, k))
      && (AllAtLeast(rates, fps as real) <==>
         forall k :: 0 < k <= n && VisibleAt(samples, k) ==> FramesAt(samples, k, fps))
  {
    hide Rate, Frames, Measurable, FramesAt, SameTabVisible, AllAtLeast;
    if n > 0 {
      FrameRatesMeaning(samples, tabIds, n - 1, fps);
      var a, b := samples[n - 1], samples[n];
      assert Measurable(samples, tabIds, n);
      NeighboursMeasurable(samples, tabIds, n);
      AllAtLeastGrows(FrameRates(samples, tabIds, n - 1), [Rate(Frames(a, b), Elapsed(a, b))], fps as real);
      FramesAtMeaning(samples, n, fps);
      assert VisibleAt(samples, n) == SameTabVisible(a, b);
      assert FrameRates(samples, tabIds, n - 1) + [] == FrameRates(samples, tabIds, n - 1);
    } else {
      NoRates(fps as real);
    }
  }

  lemma NoRates(r: real)
    ensures AllAtLeast([], r)
  {}

  lemma FramesAtMeaning(samples: seq<Sample>, k: nat, fps: int)
    requires 0 < k < |samples| && samples[k - 1].elapsedMs < samples[k].elapsedMs
    ensures var a, b := samples[k - 1], samples[k];
      AllAtLeast([Rate(Frames(a, b), Elapsed(a, b))], fps as real) <==> FramesAt(samples, k, fps)
  {
    var a, b := samples[k - 1], samples[k];
    var one := [Rate(Frames(a, b), Elapsed(a, b))];
    RateAtLeast(Frames(a, b), Elapsed(a, b), fps);
    assert one[0] == Rate(Frames(a, b), Elapsed(a, b));
  }

  lemma TabsAtMeaning(samples: seq<Sample>, tabIds: seq<string>, k: nat, fps: int)
    requires 0 < k < |samples| && Measurable(samples, tabIds, k)
    ensures AllAtLeast(TabRates(samples[k - 1], samples[k], tabIds), fps as real) <==> TabsAt(samples, tabIds, k, fps)
  {
    var a, b := samples[k - 1], samples[k];
    var rates := TabRates(a, b, tabIds);
    forall j | 0 <= j < |tabIds|
      ensures tabIds[j] in tabIds && (rates[j] >= fps as real <==>
        1000 * Presented(a, b, tabIds[j]) >= fps * Elapsed(a, b))
    {
      assert tabIds[j] in tabIds;
      RateAtLeast(Presented(a, b, tabIds[j]), Elapsed(a, b), fps);
    }
  }

  /** Every tab presents at least `fps` frames a second in each of the first n intervals. */
  predicate TabsProgress(samples: seq<Sample>, tabIds: seq<string>, n: nat, fps: int)
    requires n < |samples|
  {
    forall k :: 0 < k <= n ==> Measurable(samples, tabIds, k) && TabsAt(samples, tabIds, k, fps)
  }

  lemma {:induction false} SourceRatesMeaning(samples: seq<Sample>, tabIds: seq<string>, n: nat, fps: int)
    requires AllMeasurable(samples, tabIds) && n < |samples| && tabIds != []
    ensures var rates := SourceRates(samples, tabIds, n);
      && (rates != [] <==> n > 0)
      && (AllAtLeast(rates, fps as real) <==> TabsProgress(samples, tabIds, n, fps))
  {
    hide Rate, TabRates, Measurable, TabsAt, AllAtLeast;
    if n > 0 {
      SourceRatesMeaning(samples, tabIds, n - 1, fps);
      var a, b := samples[n - 1], samples[n];
      assert Measurable(samples, tabIds, n);
      NeighboursMeasurable(samples, tabIds, n);
      AllAtLeastGrows(SourceRates(samples, tabIds, n - 1), TabRates(a, b, tabIds), fps as real);
      TabsAtMeaning(samples, tabIds, n, fps);
    } else {
      NoRates(fps as real);
    }
  }

  lemma NeighboursMeasurable(samples: seq<Sample>, tabIds: seq<string>, k: nat)
    requires 0 < k < |samples| && Measurable(samples, tabIds, k)
    ensures samples[k - 1].elapsedMs < samples[k].elapsedMs
    ensures forall id <- tabIds :: id in samples[k - 1].tabs && id in samples[k].tabs
  {}

  // ---------- cadence

  /** `min(1000, max(0, floor(min(ratios) * 1000)))`, and 0 for no ratios. */
  function CadencePermille(ratios: seq<real>): int {
    if ratios == [] then 0
    else
      var permille := (MinReal(ratios) * 1000.0).Floor;
      if permille < 0 then 0 else if permille > 1000 then 1000 else permille
  }

  lemma CadenceAtLeast(ratios: seq<real>)
    ensures CadencePermille(ratios) >= 900 <==> ratios != [] && AllAtLeast(ratios, 0.9)
  {
    if ratios != [] {
      MinAtLeast(ratios, 0.9);
    }
  }

  /** The tab on screen progressed, and nine tenths of its frames, or of the target's, were delivered. */
  predicate CadenceAt(samples: seq<Sample>, k: int, target: nat)
    requires 0 < k < |samples| && VisibleAt(samples, k)
    requires samples[k].visibleTab.value in samples[k - 1].tabs && samples[k].visibleTab.value in samples[k].tabs
  {
    var a, b := samples[k - 1], samples[k];
    var source := Presented(a, b, b.visibleTab.value);
    source > 0 && (10 * Frames(a, b) >= 9 * source || 10_000 * Frames(a, b) >= 9 * target * Elapsed(a, b))
  }

  lemma RateIsPositive(delta: int, ms: int)
    requires ms > 0
    ensures Rate(delta, ms) > 0.0 <==> delta > 0
    ensures Rate(delta, ms) * ms as real == delta as real * 1000.0
  {
    var q := Rate(delta, ms);
    assert q * ms as real == delta as real * 1000.0;
    if q > 0.0 {
      assert q * ms as real > 0.0;
    } else {
      assert q * ms as real <= 0.0;
    }
  }

  lemma RatesCompare(frames: int, source: int, ms: int)
    requires ms > 0
    ensures Rate(frames, ms) >= 0.9 * Rate(source, ms) <==> 10 * frames >= 9 * source
  {
    var x, y, m := Rate(frames, ms), Rate(source, ms), ms as real;
    RateIsPositive(frames, ms);
    RateIsPositive(source, ms);
    ScaledCompare(x, 0.9 * y, m);
    assert 0.9 * y * m == 0.9 * (y * m);
  }

  lemma ScaledCompare(x: real, y: real, m: real)
    requires m > 0.0
    ensures x >= y <==> x * m >= y * m
  {
    if x >= y {
      assert (x - y) * m >= 0.0;
    } else {
      assert (y - x) * m > 0.0;
    }
  }

  lemma TargetCompare(frames: int, ms: int, target: nat)
    requires ms > 0
    ensures Rate(frames, ms) >= 0.9 * target as real <==> 10_000 * frames >= 9 * target * ms
  {
    var m := ms as real;
    RateIsPositive(frames, ms);
    ScaledCompare(Rate(frames, ms), 0.9 * target as real, m);
    assert (target * ms) as real == target as real * m;
    assert 9 * target * ms == 9 * (target * ms);
    assert 0.9 * target as real * m == 0.9 * (target as real * m);
  }

  lemma RatioMeaning(frames: int, source: int, ms: int, target: nat)
    requires ms > 0 && target > 0
    ensures Ratio(Rate(frames, ms), Rate(source, ms), target) >= 0.9
      <==> source > 0 && (10 * frames >= 9 * source || 10_000 * frames >= 9 * target * ms)
  {
    hide Rate;
    var f, s := Rate(frames, ms), Rate(source, ms);
    RateIsPositive(source, ms);
    RatesCompare(frames, source, ms);
    TargetCompare(frames, ms, target);
    var expected := if s < target as real then s else target as real;
    if expected > 0.0 {
      QuotientAtLeast(f, expected, 0.9);
    }
  }

  predicate KeepsCadence(samples: seq<Sample>, tabIds: seq<string>, k: int, target: nat)
    requires 0 < k < |samples|
  {
    Measurable(samples, tabIds, k) && (VisibleAt(samples, k) ==> CadenceAt(samples, k, target))
  }

  predicate CadenceHolds(samples: seq<Sample>, tabIds: seq<string>, n: nat, target: nat)
    requires n < |samples|
  {
    forall k :: 0 < k <= n ==> KeepsCadence(samples, tabIds, k, target)
  }

  /** The ratio of one interval, if it has one. */
  function RatioAt(samples: seq<Sample>, tabIds: seq<string>, target: int, k: nat): seq<real>
    requires 0 < k < |samples| && Measurable(samples, tabIds, k)
  {
    if SameTabVisible(samples[k - 1], samples[k]) then [VisibleRatio(samples[k - 1], samples[k], target)] else []
  }

  lemma RatioAtMeaning(samples: seq<Sample>, tabIds: seq<string>, target: nat, k: nat)
    requires 0 < k < |samples| && Measurable(samples, tabIds, k) && target > 0
    ensures RatioAt(samples, tabIds, target, k) != [] <==> VisibleAt(samples, k)
    ensures AllAtLeast(RatioAt(samples, tabIds, target, k), 0.9) <==> KeepsCadence(samples, tabIds, k, target)
  {
    if VisibleAt(samples, k) {
      CadenceAtMeaning(samples, k, target);
    }
  }

  lemma {:induction false} RatiosMeaning(samples: seq<Sample>, tabIds: seq<string>, target: nat, n: nat)
    requires AllMeasurable(samples, tabIds) && n < |samples| && target > 0
    ensures var ratios := Ratios(samples, tabIds, target, n);
      && (ratios != [] <==> exists k :: 0 < k <= n && VisibleAt(samples, k))
      && (AllAtLeast(ratios, 0.9) <==> CadenceHolds(samples, tabIds, n, target))
  {
    hide RatioAt, Measurable, VisibleAt, KeepsCadence, AllAtLeast;
    if n > 0 {
      RatiosMeaning(samples, tabIds, target, n - 1);
      var a, b := samples[n - 1], samples[n];
      assert Measurable(samples, tabIds, n);
      RatioAtMeaning(samples, tabIds, target, n);
      AllAtLeastGrows(Ratios(samples, tabIds, target, n - 1), RatioAt(samples, tabIds, target, n), 0.9);
    } else {
      NoRates(0.9);
    }
  }

  lemma CadenceAtMeaning(samples: seq<Sample>, k: nat, target: nat)
    requires 0 < k < |samples| && VisibleAt(samples, k) && target > 0 && samples[k - 1].elapsedMs < samples[k].elapsedMs
    requires samples[k].visibleTab.value in samples[k - 1].tabs && samples[k].visibleTab.value in samples[k].tabs
    ensures AllAtLeast([VisibleRatio(samples[k - 1], samples[k], target)], 0.9) <==> CadenceAt(samples, k, target)
  {
    var a, b := samples[k - 1], samples[k];
    RatioMeaning(Frames(a, b), Presented(a, b, b.visibleTab.value), Elapsed(a, b), target);
    var one := [VisibleRatio(a, b, target)];
    assert one[0] == VisibleRatio(a, b, target);
  }
}
