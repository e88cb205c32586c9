/**
  A steady run of fifteen minutes, and that it is admitted and passes: the criteria can be met, by any good identity.
*/
module SteadyRun {
  import opened Telemetry
  import opened Windows
  import opened Rates
  import opened Percentile
  import opened Checks
  import opened Assessment
  import opened StreamPrint

  const RECORDED := 91
  const LAST_VISIBLE := 45

  /** The k-th tab's frames at thirty a second, in full resolution. */
  function FramesAfter(tabIds: seq<string>, k: nat): map<string, TabFrames> {
    map id | id in tabIds :: TabFrames(300 * k, 1920, 1080)
  }

  /**
    The sample after k times ten seconds: one reconnection at the start, one pointer update, the browser visible for
    seven and a half minutes and hidden after that, one upload and one latency of each kind in every interval.
  */
  function SampleAt(tabIds: seq<string>, k: nat): Sample
    requires tabIds != []
  {
    var visible := k <= LAST_VISIBLE;
    Sample(10_000 * k, |tabIds|, 1920, 1080, 300 * k, 40, if k == 0 then 0 else 1,
           if k == 0 then [] else [50], if k == 0 then [] else [50], if k < 2 then 0 else 1,
           if k == 1 then Reconnecting else Connected, FramesAfter(tabIds, k), visible,
           if visible then Wrappers.Some(tabIds[0]) else Wrappers.None, 5, 5, 0, k, k, 0,
           Wrappers.Some(100), Wrappers.Some(100))
  }

  function Samples(tabIds: seq<string>, n: nat): (r: seq<Sample>)
    requires tabIds != []
    ensures |r| == n && forall k :: 0 <= k < n ==> r[k] == SampleAt(tabIds, k)
  {
    seq(n, k requires 0 <= k < n => SampleAt(tabIds, k))
  }

  function Steady(identity: Identity): (o: Observation)
    requires identity.tabIds != []
    ensures |o.samples| == |o.receipts| == RECORDED
  {
    Observation(Samples(identity.tabIds, RECORDED), seq(RECORDED, k => 10.0 * k as real), CompletedRun, identity)
  }

  // ---------- it is admitted

  lemma SamplesAreValid(identity: Identity, k: nat)
    requires GoodIdentity(identity, identity.nonce) && k < RECORDED
    ensures ValidSample(SampleAt(identity.tabIds, k), identity)
    ensures Follows(SampleAt(identity.tabIds, k), SampleAt(identity.tabIds, k + 1), identity.tabIds)
  {
    assert identity.tabIds[0] in identity.tabIds;
    assert FramesAfter(identity.tabIds, k).Keys == set id <- identity.tabIds;
  }

  lemma {:induction false} OneLatencyEach(tabIds: seq<string>, n: nat)
    requires tabIds != []
    ensures var s, m := Samples(tabIds, n), if n == 0 then 0 else n - 1;
      && Latencies(s) == 2 * m && |NavigationLatencies(s)| == |SessionLatencies(s)| == m
      && (forall v <- NavigationLatencies(s) :: v == 50) && (forall v <- SessionLatencies(s) :: v == 50)
      && CpuSamples(s) == GpuSamples(s) == n
  {
    var s := Samples(tabIds, n);
    if n == 0 {
    } else {
      OneLatencyEach(tabIds, n - 1);
      assert s[..n - 1] == Samples(tabIds, n - 1);
    }
  }

  lemma SteadyIsSound(identity: Identity)
    requires GoodIdentity(identity, identity.nonce)
    ensures Sound(Steady(identity))
  {
    hide ValidSample, Follows, SampleAt, Latencies;
    var o := Steady(identity);
    forall k | 0 <= k < RECORDED
      ensures ValidSample(o.samples[k], identity)
      ensures k > 0 ==> Follows(o.samples[k - 1], o.samples[k], identity.tabIds)
    {
      SamplesAreValid(identity, k);
      if k > 0 {
        SamplesAreValid(identity, k - 1);
      }
    }
    FirstIsEmpty(identity.tabIds);
    OneLatencyEach(identity.tabIds, RECORDED);
  }

  lemma FirstIsEmpty(tabIds: seq<string>)
    requires tabIds != []
    ensures SampleAt(tabIds, 0).navigationMs == [] && SampleAt(tabIds, 0).sessionMs == []
  {}

  // ---------- and it passes

  lemma SteadyIsTimely(o: Observation)
    requires o.identity.tabIds != [] && o == Steady(o.identity)
    ensures Timely(o)
  {
    hide SampleAt;
    forall k | 0 <= k < RECORDED ensures o.samples[k].elapsedMs == 10_000 * k {
      ClockOfSteady(o.identity.tabIds, k);
    }
    EvenGaps(o.samples);
    EvenReceipts(o.receipts);
  }

  lemma EvenGaps(samples: seq<Sample>)
    requires forall k :: 0 <= k < |samples| ==> samples[k].elapsedMs == 10_000 * k
    ensures NoLongGaps(samples)
  {
    forall k {:trigger Span(samples, k - 1, k)} | 0 < k < |samples|
      ensures Span(samples, k - 1, k) <= MAX_SAMPLE_GAP_MS
    {
      var previous := samples[k - 1];
      assert previous.elapsedMs == 10_000 * (k - 1);
    }
  }

  lemma EvenReceipts(receipts: seq<real>)
    requires |receipts| == RECORDED && forall k :: 0 <= k < |receipts| ==> receipts[k] == 10.0 * k as real
    ensures forall k {:trigger receipts[k]} :: 0 < k < |receipts| ==> receipts[k] - receipts[k - 1] == 10.0
    ensures receipts[RECORDED - 1] - receipts[0] == 900.0
  {}

  lemma ClockOfSteady(tabIds: seq<string>, k: nat)
    requires tabIds != []
    ensures SampleAt(tabIds, k).elapsedMs == 10_000 * k
  {}

  lemma SteadyIsFullSize(o: Observation)
    requires o.identity.tabIds != [] && o == Steady(o.identity)
    ensures TabsPresent(o) && FullSize(o)
  {
    forall s | s in o.samples
      ensures HasTabs(s, o.identity.tabIds) && s.viewportWidth == 1920 && s.viewportHeight == 1080
      ensures TabsAtLeast(s, o.identity.tabIds, (t: TabFrames) => t.width, 1920)
      ensures TabsAtLeast(s, o.identity.tabIds, (t: TabFrames) => t.height, 1080)
    {
      var k :| 0 <= k < RECORDED && o.samples[k] == s;
    }
  }

  lemma SteadyInterval(o: Observation, k: nat)
    requires o.identity.tabIds != [] && o == Steady(o.identity) && 0 < k < RECORDED
    ensures Measurable(o.samples, o.identity.tabIds, k)
    ensures VisibleAt(o.samples, k) <==> k <= LAST_VISIBLE
    ensures FramesAt(o.samples, k, 27) && TabsAt(o.samples, o.identity.tabIds, k, 1)
    ensures KeepsCadence(o.samples, o.identity.tabIds, k, o.identity.targetFps)
  {
    var a, b := o.samples[k - 1], o.samples[k];
    assert a == SampleAt(o.identity.tabIds, k - 1) && b == SampleAt(o.identity.tabIds, k);
    assert o.identity.tabIds[0] in o.identity.tabIds;
  }

  lemma SteadyIsDelivered(o: Observation)
    requires o.identity.tabIds != [] && o == Steady(o.identity)
    requires AllMeasurable(o.samples, o.identity.tabIds)
    ensures Delivered(o)
  {
    hide SampleAt, Measurable, VisibleAt, FramesAt, TabsAt, KeepsCadence;
    forall k | 0 < k < RECORDED
      ensures Measurable(o.samples, o.identity.tabIds, k)
      ensures VisibleAt(o.samples, k) <==> k <= LAST_VISIBLE
      ensures FramesAt(o.samples, k, 27) && TabsAt(o.samples, o.identity.tabIds, k, 1)
      ensures KeepsCadence(o.samples, o.identity.tabIds, k, o.identity.targetFps)
    {
      SteadyInterval(o, k);
    }
    assert VisibleAt(o.samples, 1);
  }

  lemma SteadyIsPointed(o: Observation)
    requires o.identity.tabIds != [] && o == Steady(o.identity)
    ensures Pointed(o)
  {
    var s := o.samples;
    assert IsRun(s, Stationary, 2, LAST_VISIBLE) && Span(s, 2, LAST_VISIBLE) == 430_000;
    assert s[0].pointerUpdates == 0 && s[RECORDED - 1].pointerUpdates == 1;
  }

  lemma {:induction false} AllAtMost(values: seq<nat>, limit: nat)
    requires forall v <- values :: v <= limit
    ensures AtMost(values, limit) == |values|
  {
    if values == [] {
    } else {
      var n := |values| - 1;
      assert values[n] in values && forall v <- values[..n] :: v in values;
      AllAtMost(values[..n], limit);
    }
  }

  lemma SteadyIsResponsive(o: Observation)
    requires o.identity.tabIds != [] && o == Steady(o.identity)
    ensures Responsive(NavigationLatencies(o.samples)) && Responsive(SessionLatencies(o.samples))
  {
    hide SampleAt, AtMost, NavigationLatencies, SessionLatencies;
    OneLatencyEach(o.identity.tabIds, RECORDED);
    AllAtMost(NavigationLatencies(o.samples), LATENCY_P95_LIMIT_MS);
    AllAtMost(SessionLatencies(o.samples), LATENCY_P95_LIMIT_MS);
    var navigation, session := NavigationLatencies(o.samples), SessionLatencies(o.samples);
    assert forall i :: 0 <= i < |navigation| ==> navigation[i] in navigation;
    assert forall i :: 0 <= i < |session| ==> session[i] in session;
  }

  lemma {:induction false} UploadsOfSteady(o: Observation, k: nat)
    requires o.identity.tabIds != [] && o == Steady(o.identity) && k < RECORDED
    ensures var n := if k <= LAST_VISIBLE then k else LAST_VISIBLE; VisibleUploads(o.samples, k) == (n, n)
  {
    if k == 0 {
    } else {
      UploadsOfSteady(o, k - 1);
    }
  }

  lemma SteadyIsLoaded(o: Observation)
    requires o.identity.tabIds != [] && o == Steady(o.identity)
    ensures Loaded(o)
  {
    hide VisibleUploads, CpuSamples, GpuSamples;
    OneLatencyEach(o.identity.tabIds, RECORDED);
    UploadsOfSteady(o, RECORDED - 1);
    assert UploadsAt(o.samples, 1);
  }

  lemma {:induction false} HiddenOfSteady(o: Observation, k: nat)
    requires o.identity.tabIds != [] && o == Steady(o.identity) && k < RECORDED
    ensures var n := if k <= LAST_VISIBLE + 1 then 0 else k - LAST_VISIBLE - 1;
      Sums(o.samples, k) == (0, 0, n, 10_000 * n)
  {
    if k == 0 {
    } else {
      HiddenOfSteady(o, k - 1);
    }
  }

  lemma SteadyIsQuiet(o: Observation)
    requires o.identity.tabIds != [] && o == Steady(o.identity) && Increasing(o.samples)
    ensures QuietWhenHidden(o)
  {
    hide Sums, Longest, SampleAt, Increasing;
    HiddenOfSteady(o, RECORDED - 1);
    NothingIsActive(o);
    HiddenIsQuiescent(o);
  }

  lemma HiddenIsQuiescent(o: Observation)
    requires o.identity.tabIds != [] && o == Steady(o.identity)
    ensures HasRun(o.samples, Quiescent, 300_000)
  {
    assert IsRun(o.samples, Quiescent, LAST_VISIBLE + 1, RECORDED - 1);
    assert Span(o.samples, LAST_VISIBLE + 1, RECORDED - 1) == 440_000;
  }

  lemma RunNeedsAnInterval(samples: seq<Sample>, kind: Kind, i: int, j: int)
    requires IsRun(samples, kind, i, j) && (i < j ==> !QualifiesAt(samples, kind, i))
    ensures i == j
  {}

  lemma NothingIsActive(o: Observation)
    requires o.identity.tabIds != [] && o == Steady(o.identity)
    ensures !HasRun(o.samples, Active, 20_001)
  {
    forall i, j | IsRun(o.samples, Active, i, j) ensures i == j {
      RunNeedsAnInterval(o.samples, Active, i, j);
    }
  }

  lemma SteadyIsReconnected(o: Observation)
    requires o.identity.tabIds != [] && o == Steady(o.identity)
    ensures Reconnected(o)
  {
    assert Recovered(o.samples, 0, 1, 2);
    forall s | s in o.samples ensures s.state.Connected? || s.state.Reconnecting? {
      var k :| 0 <= k < RECORDED && o.samples[k] == s;
    }
  }

  lemma SteadyMeets(o: Observation)
    requires GoodIdentity(o.identity, o.identity.nonce) && o == Steady(o.identity)
    ensures Sound(o) && Meets(o)
  {
    hide Timely, FullSize, Delivered, Pointed, Responsive, Loaded, QuietWhenHidden, Reconnected, Sound, SampleAt;
    hide AllMeasurable, Increasing, RepaintsGrow, TabsPresent, Steady, NavigationLatencies, SessionLatencies;
    SteadyIsSound(o.identity);
    SoundSamples(o);
    SteadyIsTimely(o);
    SteadyIsFullSize(o);
    SteadyIsDelivered(o);
    SteadyIsPointed(o);
    SteadyIsResponsive(o);
    SteadyIsLoaded(o);
    SteadyIsQuiet(o);
    SteadyIsReconnected(o);
  }

  /** For any good identity the steady run, sent as a stream, is admitted as itself and meets every criterion. */
  lemma SteadyRunPasses(identity: Identity, start: real, end: real)
    requires GoodIdentity(identity, identity.nonce)
    ensures var o := Steady(identity); var stream := StreamOf(o, start, end);
      && Admissible(stream, identity.nonce) && Observed(stream, identity.nonce) == o
      && Sound(o) && TabsPresent(o) && AllMeasurable(o.samples, identity.tabIds)
      && Meets(o) && AllMet(TableOf(o))
  {
    hide Meets, Coherent, SampleAt, Samples, AllMeasurable, TableOf, NeverBack, StreamOf, AllMet, Observed, Admissible;
    var o := Steady(identity);
    SteadyMeets(o);
    StreamReadsBack(o, start, end, identity.nonce);
    TableMeaning(o);
  }
}
