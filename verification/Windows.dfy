/** One-pass run lengths over the samples, and the maxima over all ranges that they stand for. */
module Windows {
  import opened Telemetry

  datatype Kind = Active | Quiescent | Stationary

  predicate HiddenPair(a: Sample, b: Sample) {
    !a.visible && !b.visible
  }

  /** Whether the interval between two neighbouring samples continues a run. */
  predicate Qualifies(kind: Kind, a: Sample, b: Sample) {
    match kind
    case Active => HiddenPair(a, b) && b.repaints > a.repaints
    case Quiescent => HiddenPair(a, b) && b.repaints <= a.repaints
    case Stationary =>
      && a.visible && b.visible && a.visibleTab == b.visibleTab && a.pointerX == b.pointerX && a.pointerY == b.pointerY
      && a.pointerUpdates == b.pointerUpdates && a.state.Connected? && b.state.Connected?
      && b.framesReceived > a.framesReceived
  }

  // ---------- the specification: maxima over ranges

  predicate Increasing(samples: seq<Sample>) {
    forall k {:trigger samples[k]} :: 0 < k < |samples| ==> samples[k - 1].elapsedMs < samples[k].elapsedMs
  }

  predicate QualifiesAt(samples: seq<Sample>, kind: Kind, k: int)
    requires 0 <= k < |samples| - 1
  {
    Qualifies(kind, samples[k], samples[k + 1])
  }

  /** Every interval from sample i to sample j qualifies. */
  predicate IsRun(samples: seq<Sample>, kind: Kind, i: int, j: int) {
    0 <= i <= j < |samples| && forall k :: i <= k < j ==> QualifiesAt(samples, kind, k)
  }

  function Span(samples: seq<Sample>, i: int, j: int): int
    requires 0 <= i < |samples| && 0 <= j < |samples|
  {
    samples[j].elapsedMs - samples[i].elapsedMs
  }

  /** `m` is the length of some run, and no run is longer. */
  ghost predicate IsLongest(samples: seq<Sample>, kind: Kind, m: int) {
    && (exists i, j :: IsRun(samples, kind, i, j) && Span(samples, i, j) == m)
    && forall i, j :: IsRun(samples, kind, i, j) ==> Span(samples, i, j) <= m
  }

  // ---------- the one-pass computation

  function Larger(a: int, b: int): int {
    if a < b then b else a
  }

  /** The run variable after sample k. */
  function RunAt(samples: seq<Sample>, kind: Kind, k: nat): int
    requires k < |samples|
  {
    if k == 0 || !QualifiesAt(samples, kind, k - 1) then 0
    else RunAt(samples, kind, k - 1) + Span(samples, k - 1, k)
  }

  function Longest(samples: seq<Sample>, kind: Kind, k: nat): int
    requires k < |samples|
  {
    if k == 0 then 0 else Larger(Longest(samples, kind, k - 1), RunAt(samples, kind, k))
  }

  lemma {:induction false} TimePasses(samples: seq<Sample>, i: nat, j: nat)
    requires Increasing(samples) && i <= j < |samples|
    ensures Span(samples, i, j) >= 0 && (i < j ==> Span(samples, i, j) > 0)
  {
    if i == j {
    } else {
      TimePasses(samples, i, j - 1);
    }
  }

  /** The run variable measures the run that ends here and starts as early as one can. */
  lemma {:induction false} RunEndsHere(samples: seq<Sample>, kind: Kind, k: nat) returns (start: nat)
    requires k < |samples|
    ensures IsRun(samples, kind, start, k) && Span(samples, start, k) == RunAt(samples, kind, k)
    ensures start == 0 || !QualifiesAt(samples, kind, start - 1)
  {
    hide QualifiesAt;
    if k == 0 || !QualifiesAt(samples, kind, k - 1) {
      start := k;
    } else {
      start := RunEndsHere(samples, kind, k - 1);
    }
  }

  lemma NoEarlierRun(samples: seq<Sample>, kind: Kind, start: nat, i: int, k: nat)
    requires start <= k < |samples| && IsRun(samples, kind, i, k)
    requires start == 0 || !QualifiesAt(samples, kind, start - 1)
    ensures start <= i
  {}

  lemma RunsEndingHere(samples: seq<Sample>, kind: Kind, i: int, k: nat)
    requires Increasing(samples) && k < |samples| && IsRun(samples, kind, i, k)
    ensures Span(samples, i, k) <= RunAt(samples, kind, k)
  {
    hide QualifiesAt;
    var start := RunEndsHere(samples, kind, k);
    NoEarlierRun(samples, kind, start, i, k);
    TimePasses(samples, start, i);
  }

  lemma {:induction false} LongestUpTo(samples: seq<Sample>, kind: Kind, k: nat)
    requires Increasing(samples) && k < |samples|
    ensures exists i, j :: IsRun(samples, kind, i, j) && j <= k && Span(samples, i, j) == Longest(samples, kind, k)
    ensures forall i, j :: IsRun(samples, kind, i, j) && j <= k ==> Span(samples, i, j) <= Longest(samples, kind, k)
  {
    hide QualifiesAt, Increasing, RunAt;
    var start := RunEndsHere(samples, kind, k);
    if k == 0 {
      assert IsRun(samples, kind, 0, 0) && Span(samples, 0, 0) == 0;
    } else {
      LongestUpTo(samples, kind, k - 1);
      forall i, j | IsRun(samples, kind, i, j) && j <= k ensures Span(samples, i, j) <= Longest(samples, kind, k) {
        if j == k {
          RunsEndingHere(samples, kind, i, k);
        }
      }
    }
  }

  /** The one pass finds the maximum over all qualifying ranges. */
  lemma LongestIsTheMaximum(samples: seq<Sample>, kind: Kind)
    requires Increasing(samples) && samples != []
    ensures IsLongest(samples, kind, Longest(samples, kind, |samples| - 1))
  {
    LongestUpTo(samples, kind, |samples| - 1);
  }

  // ---------- hidden repainting

  datatype HiddenBehavior = HiddenBehavior(
    repaintEvents: int, activeIntervals: nat, intervals: nat, observedMs: int, longestActiveMs: int,
    longestQuiescentMs: int)

  function Sums(samples: seq<Sample>, k: nat): (int, nat, nat, int)
    requires k < |samples|
  {
    if k == 0 then (0, 0, 0, 0)
    else
      var (events, active, count, observed) := Sums(samples, k - 1);
      var a, b := samples[k - 1], samples[k];
      if !HiddenPair(a, b) then (events, active, count, observed)
      else if b.repaints > a.repaints then
        (events + b.repaints - a.repaints, active + 1, count + 1, observed + Span(samples, k - 1, k))
      else (events, active, count + 1, observed + Span(samples, k - 1, k))
  }

  function BehaviorOf(samples: seq<Sample>): HiddenBehavior {
    if samples == [] then HiddenBehavior(0, 0, 0, 0, 0, 0)
    else
      var k := |samples| - 1;
      var (events, active, count, observed) := Sums(samples, k);
      HiddenBehavior(events, active, count, observed, Longest(samples, Active, k), Longest(samples, Quiescent, k))
  }

  lemma {:induction false} LongestIsNatural(samples: seq<Sample>, kind: Kind, k: nat)
    requires k < |samples|
    ensures Longest(samples, kind, k) >= 0
  {
    if k == 0 {
    } else {
      LongestIsNatural(samples, kind, k - 1);
    }
  }

  method HiddenRepaintBehavior(samples: seq<Sample>) returns (r: HiddenBehavior)
    ensures r == BehaviorOf(samples)
  {
    r := HiddenBehavior(0, 0, 0, 0, 0, 0);
    var activeRun, quiescentRun := 0, 0;
    if samples == [] {
      return;
    }
    for k := 1 to |samples|
      invariant activeRun == RunAt(samples, Active, k - 1) && quiescentRun == RunAt(samples, Quiescent, k - 1)
      invariant r.longestActiveMs == Longest(samples, Active, k - 1)
        && r.longestQuiescentMs == Longest(samples, Quiescent, k - 1)
      invariant (r.repaintEvents, r.activeIntervals, r.intervals, r.observedMs) == Sums(samples, k - 1)
    {
      LongestIsNatural(samples, Active, k - 1);
      LongestIsNatural(samples, Quiescent, k - 1);
      assert QualifiesAt(samples, Active, k - 1) == Qualifies(Active, samples[k - 1], samples[k]);
      assert QualifiesAt(samples, Quiescent, k - 1) == Qualifies(Quiescent, samples[k - 1], samples[k]);
      var previous, current := samples[k - 1], samples[k];
      var elapsed := current.elapsedMs - previous.elapsedMs;
      if previous.visible || current.visible {
        activeRun, quiescentRun := 0, 0;
      } else {
        r := r.(intervals := r.intervals + 1, observedMs := r.observedMs + elapsed);
        var delta := current.repaints - previous.repaints;
        if delta > 0 {
          activeRun, quiescentRun := activeRun + elapsed, 0;
          r := r.(repaintEvents := r.repaintEvents + delta, activeIntervals := r.activeIntervals + 1,
                  longestActiveMs := Larger(r.longestActiveMs, activeRun));
        } else {
          activeRun, quiescentRun := 0, quiescentRun + elapsed;
          r := r.(longestQuiescentMs := Larger(r.longestQuiescentMs, quiescentRun));
        }
      }
    }
  }

  method LongestStationaryVisibleWindowMs(samples: seq<Sample>) returns (longest: int)
    ensures longest == if samples == [] then 0 else Longest(samples, Stationary, |samples| - 1)
  {
    longest := 0;
    var run := 0;
    if samples == [] {
      return;
    }
    for k := 1 to |samples|
      invariant run == RunAt(samples, Stationary, k - 1) && longest == Longest(samples, Stationary, k - 1)
    {
      LongestIsNatural(samples, Stationary, k - 1);
      var previous, current := samples[k - 1], samples[k];
      if && previous.visible && current.visible && previous.visibleTab == current.visibleTab
         && previous.pointerX == current.pointerX && previous.pointerY == current.pointerY
         && previous.pointerUpdates == current.pointerUpdates
         && previous.state.Connected? && current.state.Connected?
         && current.framesReceived - previous.framesReceived > 0
      {
        assert QualifiesAt(samples, Stationary, k - 1);
        run := run + (current.elapsedMs - previous.elapsedMs);
        longest := Larger(longest, run);
      } else {
        assert !QualifiesAt(samples, Stationary, k - 1);
        run := 0;
      }
    }
  }

  /** Repaint counters never go back. */
  predicate RepaintsGrow(samples: seq<Sample>) {
    forall k {:trigger samples[k]} :: 0 < k < |samples| ==> samples[k - 1].repaints <= samples[k].repaints
  }

  lemma {:induction false} RepaintsAddUp(samples: seq<Sample>, i: nat, j: nat)
    requires RepaintsGrow(samples) && i <= j < |samples|
    ensures samples[i].repaints <= samples[j].repaints
  {
    if i == j {
    } else {
      RepaintsAddUp(samples, i, j - 1);
    }
  }

  /** Because the counter is monotone its two ends are enough: a quiescent range is a hidden one with equal ends. */
  lemma QuiescentEndsAreEnough(samples: seq<Sample>, i: nat, j: nat)
    requires RepaintsGrow(samples) && i < j < |samples|
    ensures IsRun(samples, Quiescent, i, j) <==>
      (forall k :: i <= k <= j ==> !samples[k].visible) && samples[i].repaints == samples[j].repaints
  {
    if IsRun(samples, Quiescent, i, j) {
      QuiescentRunIsFlat(samples, i, j);
    }
    if (forall k :: i <= k <= j ==> !samples[k].visible) && samples[i].repaints == samples[j].repaints {
      forall k | i <= k < j ensures QualifiesAt(samples, Quiescent, k) {
        RepaintsAddUp(samples, i, k);
        RepaintsAddUp(samples, k + 1, j);
      }
    }
  }

  lemma {:induction false} QuiescentRunIsFlat(samples: seq<Sample>, i: nat, j: nat)
    requires RepaintsGrow(samples) && i < j < |samples| && IsRun(samples, Quiescent, i, j)
    ensures (forall k :: i <= k <= j ==> !samples[k].visible) && samples[i].repaints == samples[j].repaints
  {
    assert QualifiesAt(samples, Quiescent, j - 1);
    if i == j - 1 {
    } else {
      assert IsRun(samples, Quiescent, i, j - 1);
      QuiescentRunIsFlat(samples, i, j - 1);
    }
  }

  // ---------- what runs are, over their whole range

  /** The interval before sample k is hidden. */
  predicate HiddenAt(samples: seq<Sample>, k: int) {
    0 < k < |samples| && !samples[k - 1].visible && !samples[k].visible
  }

  /** And something was repainted in it. */
  predicate RepaintedAt(samples: seq<Sample>, k: int) {
    HiddenAt(samples, k) && samples[k - 1].repaints < samples[k].repaints
  }

  /** A burst: each of its intervals is hidden and repainted. */
  lemma ActiveRunMeans(samples: seq<Sample>, i: nat, j: nat)
    requires i <= j < |samples|
    ensures IsRun(samples, Active, i, j) <==> forall k :: i < k <= j ==> RepaintedAt(samples, k)
  {
    if IsRun(samples, Active, i, j) {
      forall k | i < k <= j ensures RepaintedAt(samples, k) {
        assert QualifiesAt(samples, Active, k - 1);
      }
    }
    if forall k :: i < k <= j ==> RepaintedAt(samples, k) {
      forall k | i <= k < j ensures QualifiesAt(samples, Active, k) {
        assert RepaintedAt(samples, k + 1);
      }
    }
  }

  predicate SamePlace(a: Sample, b: Sample) {
    && a.visible && b.visible && a.state.Connected? && b.state.Connected? && a.visibleTab == b.visibleTab
    && (a.pointerX, a.pointerY, a.pointerUpdates) == (b.pointerX, b.pointerY, b.pointerUpdates)
  }

  /** Frames have arrived in the interval before sample k. */
  predicate FramesArrive(samples: seq<Sample>, k: int) {
    0 < k < |samples| && samples[k - 1].framesReceived < samples[k].framesReceived
  }

  /**
    A stationary window: one tab on screen, one pointer position, connected throughout, and frames in every interval.
  */
  lemma {:induction false} StationaryRunMeans(samples: seq<Sample>, i: nat, j: nat)
    requires i < j < |samples|
    ensures IsRun(samples, Stationary, i, j) <==>
      && (forall k :: i <= k <= j ==> SamePlace(samples[i], samples[k]))
      && (forall k :: i < k <= j ==> FramesArrive(samples, k))
  {
    assert IsRun(samples, Stationary, i, j) <==>
      IsRun(samples, Stationary, i, j - 1) && QualifiesAt(samples, Stationary, j - 1);
    assert QualifiesAt(samples, Stationary, j - 1) <==>
      SamePlace(samples[j - 1], samples[j]) && FramesArrive(samples, j);
    if i == j - 1 {
    } else {
      StationaryRunMeans(samples, i, j - 1);
    }
  }

  function UpTo(p: int -> bool, n: nat): set<int> {
    set k | 0 < k <= n && p(k)
  }

  lemma OneMoreUpTo(p: int -> bool, n: nat)
    requires n > 0
    ensures |UpTo(p, n)| == |UpTo(p, n - 1)| + if p(n) then 1 else 0
  {
    assert UpTo(p, n) == if p(n) then UpTo(p, n - 1) + {n} else UpTo(p, n - 1);
  }

  function HiddenUpTo(samples: seq<Sample>, n: nat): set<int> {
    UpTo(k => HiddenAt(samples, k), n)
  }

  function RepaintedUpTo(samples: seq<Sample>, n: nat): set<int> {
    UpTo(k => RepaintedAt(samples, k), n)
  }

  lemma OneMoreInterval(samples: seq<Sample>, n: nat)
    requires 0 < n < |samples|
    ensures |HiddenUpTo(samples, n)| == |HiddenUpTo(samples, n - 1)| + if HiddenAt(samples, n) then 1 else 0
    ensures |RepaintedUpTo(samples, n)| == |RepaintedUpTo(samples, n - 1)| + if RepaintedAt(samples, n) then 1 else 0
  {
    hide HiddenAt, RepaintedAt, UpTo;
    OneMoreUpTo(k => HiddenAt(samples, k), n);
    OneMoreUpTo(k => RepaintedAt(samples, k), n);
  }

  lemma NoInterval(samples: seq<Sample>)
    ensures HiddenUpTo(samples, 0) == {} && RepaintedUpTo(samples, 0) == {}
  {}

  /** The counts are those of the hidden intervals, and of those among them that are repainted. */
  lemma {:induction false} SumsCount(samples: seq<Sample>, n: nat)
    requires n < |samples|
    ensures var (_, active, count, _) := Sums(samples, n);
      count == |HiddenUpTo(samples, n)| && active == |RepaintedUpTo(samples, n)|
  {
    hide HiddenUpTo, RepaintedUpTo;
    if n == 0 {
      NoInterval(samples);
    } else {
      SumsCount(samples, n - 1);
      OneMoreInterval(samples, n);
    }
  }

  // ---------- reconnection

  predicate Recovered(samples: seq<Sample>, i: int, j: int, k: int) {
    0 <= i < j < k < |samples| && samples[i].state.Connected? && samples[j].state.Reconnecting?
      && samples[k].state.Connected?
  }

  /**
    A recovery was seen exactly if a connected sample, a later reconnecting one and a still later connected one exist.
  */
  method ReconnectRecovered(samples: seq<Sample>) returns (recovered: bool)
    ensures recovered <==> exists i, j, k :: Recovered(samples, i, j, k)
  {
    var connectedBefore, reconnecting := false, false;
    ghost var first, second := 0, 0;
    for n := 0 to |samples|
      invariant connectedBefore ==> 0 <= first < n && samples[first].state.Connected?
      invariant !connectedBefore ==> forall i :: 0 <= i < n ==> !samples[i].state.Connected?
      invariant reconnecting ==> connectedBefore && first < second < n && samples[second].state.Reconnecting?
      invariant !reconnecting ==>
        forall i, j :: 0 <= i < j < n && samples[i].state.Connected? ==> !samples[j].state.Reconnecting?
      invariant forall i, j, k :: Recovered(samples, i, j, k) ==> k >= n
    {
      var state := samples[n].state;
      if state.Connected? && reconnecting {
        assert Recovered(samples, first, second, n);
        return true;
      }
      if state.Connected? {
        if !connectedBefore {
          first := n;
        }
        connectedBefore := true;
      } else if state.Reconnecting? && connectedBefore {
        if !reconnecting {
          second := n;
        }
        reconnecting := true;
      }
    }
    return false;
  }
}
