/** The criteria of a pass as tables of named conditions: time and sizes, and what each table means. */
module Checks {
  import opened Telemetry
  import opened Windows
  import opened Rates

  const PASS_DURATION_SECONDS := 900
  const MAX_SAMPLE_GAP_MS := 10_000
  const MAX_RECEIPT_GAP_SECONDS := 15.0
  const MIN_CADENCE_RATIO_PERMILLE := 900
  const MIN_VISIBLE_DELIVERY_FPS := (MIN_SUPPORTED_TARGET_FPS * MIN_CADENCE_RATIO_PERMILLE + 999) / 1000
  const STATIONARY_POINTER_WINDOW_MS := 300_000
  const HIDDEN_QUIESCENT_WINDOW_MS := 300_000
  const MAX_HIDDEN_REPAINT_BURST_MS := 2 * MAX_SAMPLE_GAP_MS
  const MAX_HIDDEN_REPAINT_ACTIVE_FRACTION := 0.05
  const MIN_LATENCY_SAMPLES := 15
  const LATENCY_P95_LIMIT_MS := 100
  const LATENCY_MAX_LIMIT_MS := 250
  const MIN_HOST_LOAD_COVERAGE_PERMILLE := 900

  /** What the parser guarantees of an observation. */
  predicate Sound(o: Observation) {
    && Coherent(o.samples, o.identity) && NeverBack(o.receipts) && |o.receipts| == |o.samples|
    && GoodIdentity(o.identity, o.identity.nonce)
  }

  lemma ObservedIsSound(stream: seq<Receipt>, nonce: string)
    requires Admissible(stream, nonce)
    ensures Sound(Observed(stream, nonce))
  {}

  lemma SoundSamples(o: Observation)
    requires Sound(o)
    ensures Increasing(o.samples) && RepaintsGrow(o.samples) && AllMeasurable(o.samples, o.identity.tabIds)
  {
    forall k | 0 < k < |o.samples| ensures Measurable(o.samples, o.identity.tabIds, k) {
      assert ValidSample(o.samples[k - 1], o.identity) && ValidSample(o.samples[k], o.identity);
      assert Follows(o.samples[k - 1], o.samples[k], o.identity.tabIds);
    }
    forall k | 0 < k < |o.samples|
      ensures o.samples[k - 1].elapsedMs < o.samples[k].elapsedMs && o.samples[k - 1].repaints <= o.samples[k].repaints
    {
      assert Follows(o.samples[k - 1], o.samples[k], o.identity.tabIds);
    }
  }

  // ---------- check tables

  type CheckTable = seq<(string, bool)>

  function Failing(checks: CheckTable): seq<string> {
    if checks == [] then []
    else
      var n := |checks| - 1;
      Failing(checks[..n]) + if checks[n].1 then [] else [checks[n].0]
  }

  predicate AllMet(checks: CheckTable) {
    forall k :: 0 <= k < |checks| ==> checks[k].1
  }

  lemma {:induction false} NothingFails(checks: CheckTable)
    ensures Failing(checks) == [] <==> AllMet(checks)
  {
    if checks == [] {
    } else {
      NothingFails(checks[..|checks| - 1]);
    }
  }

  lemma AllMetAdds(a: CheckTable, b: CheckTable)
    ensures AllMet(a + b) <==> AllMet(a) && AllMet(b)
  {
    assert forall k :: 0 <= k < |a| ==> (a + b)[k] == a[k];
    assert forall k :: 0 <= k < |b| ==> (a + b)[|a| + k] == b[k];
  }

  // ---------- time

  function EndpointSpan(o: Observation): int
    requires o.samples != []
  {
    Span(o.samples, 0, |o.samples| - 1)
  }

  function ReceiptSpan(o: Observation): real
    requires o.receipts != []
  {
    o.receipts[|o.receipts| - 1] - o.receipts[0]
  }

  function DurationSeconds(endpointMs: int, receiptSeconds: real): int {
    var endpoint := endpointMs as real / 1000.0;
    var least := if receiptSeconds < endpoint then receiptSeconds else endpoint;
    if least.Floor < 0 then 0 else least.Floor
  }

  predicate NoLongGaps(samples: seq<Sample>) {
    forall k {:trigger samples[k]} :: 0 < k < |samples| ==> Span(samples, k - 1, k) <= MAX_SAMPLE_GAP_MS
  }

  /** No gap in the endpoint's clock or in the collector's. */
  predicate SteadilySampled(o: Observation) {
    && |o.samples| >= 2 && |o.receipts| == |o.samples| && o.samples[0].elapsedMs <= MAX_SAMPLE_GAP_MS
    && NoLongGaps(o.samples)
    && (forall k {:trigger o.receipts[k]} :: 0 < k < |o.receipts| ==>
       o.receipts[k] - o.receipts[k - 1] <= MAX_RECEIPT_GAP_SECONDS)
  }

  function TimeChecks(o: Observation): CheckTable
    requires o.samples != [] && o.receipts != []
  {
    [("endpoint_completed", o.status.CompletedRun?),
     ("sample_cadence", SteadilySampled(o)),
     ("duration_seconds", DurationSeconds(EndpointSpan(o), ReceiptSpan(o)) >= PASS_DURATION_SECONDS)]
  }

  predicate Timely(o: Observation)
    requires o.samples != [] && o.receipts != []
  {
    && o.status.CompletedRun? && SteadilySampled(o)
    && EndpointSpan(o) >= 900_000 && ReceiptSpan(o) >= 900.0
  }

  /** The same table in terms of what was observed. */
  function TimeCriteria(o: Observation): CheckTable
    requires o.samples != [] && o.receipts != []
  {
    [("endpoint_completed", o.status.CompletedRun?), ("sample_cadence", SteadilySampled(o)),
     ("duration_seconds", EndpointSpan(o) >= 900_000 && ReceiptSpan(o) >= 900.0)]
  }

  lemma TimeMeaning(o: Observation)
    requires o.samples != [] && o.receipts != []
    ensures AllMet(TimeChecks(o)) <==> Timely(o)
    ensures TimeChecks(o) == TimeCriteria(o)
  {
    hide SteadilySampled, EndpointSpan, ReceiptSpan;
    var c := TimeChecks(o);
    assert AllMet(c) <==> c[0].1 && c[1].1 && c[2].1;
  }

  // ---------- sizes

  function Least(values: seq<nat>): nat {
    if values == [] then 0
    else
      var n := |values| - 1;
      if n > 0 && Least(values[..n]) < values[n] then Least(values[..n]) else values[n]
  }

  lemma {:induction false} LeastIsLeast(values: seq<nat>, k: nat)
    requires k > 0
    ensures Least(values) >= k <==> values != [] && forall i :: 0 <= i < |values| ==> values[i] >= k
  {
    if values == [] {
    } else {
      LeastIsLeast(values[..|values| - 1], k);
    }
  }

  function FieldOf(samples: seq<Sample>, f: Sample -> nat): (r: seq<nat>)
    ensures |r| == |samples| && forall i :: 0 <= i < |samples| ==> r[i] == f(samples[i])
  {
    seq<nat>(|samples|, i requires 0 <= i < |samples| => f(samples[i]))
  }

  predicate HasTabs(s: Sample, tabIds: seq<string>) {
    forall id <- tabIds :: id in s.tabs
  }

  function TabFieldOf(s: Sample, tabIds: seq<string>, f: TabFrames -> nat): (r: seq<nat>)
    requires HasTabs(s, tabIds)
    ensures |r| == |tabIds| && forall j :: 0 <= j < |tabIds| ==> r[j] == f(s.tabs[tabIds[j]])
  {
    seq<nat>(|tabIds|, j requires 0 <= j < |tabIds| => f(s.tabs[tabIds[j]]))
  }

  /** One value for each tab of each sample. */
  function TabField(samples: seq<Sample>, tabIds: seq<string>, f: TabFrames -> nat): seq<nat>
    requires forall s <- samples :: HasTabs(s, tabIds)
  {
    if samples == [] then []
    else
      var n := |samples| - 1;
      assert samples[n] in samples;
      TabField(samples[..n], tabIds, f) + TabFieldOf(samples[n], tabIds, f)
  }

  predicate TabsAtLeast(s: Sample, tabIds: seq<string>, f: TabFrames -> nat, k: nat)
    requires HasTabs(s, tabIds)
  {
    forall id <- tabIds :: f(s.tabs[id]) >= k
  }

  predicate AllFrom(values: seq<nat>, k: nat) {
    forall v <- values :: v >= k
  }

  predicate AllSamples(samples: seq<Sample>, tabIds: seq<string>, f: TabFrames -> nat, k: nat)
    requires forall s <- samples :: HasTabs(s, tabIds)
  {
    forall s <- samples :: TabsAtLeast(s, tabIds, f, k)
  }

  lemma AllFromAdds(a: seq<nat>, b: seq<nat>, k: nat)
    ensures AllFrom(a + b, k) <==> AllFrom(a, k) && AllFrom(b, k)
  {
    assert forall v :: v in a + b <==> v in a || v in b;
  }

  lemma AllSamplesAdds(samples: seq<Sample>, s: Sample, tabIds: seq<string>, f: TabFrames -> nat, k: nat)
    requires (forall s <- samples :: HasTabs(s, tabIds)) && HasTabs(s, tabIds)
    ensures AllSamples(samples + [s], tabIds, f, k) <==>
      AllSamples(samples, tabIds, f, k) && TabsAtLeast(s, tabIds, f, k)
  {
    hide HasTabs, TabsAtLeast;
    assert forall t :: t in samples + [s] <==> t in samples || t == s;
  }

  lemma TabFieldOfHas(s: Sample, tabIds: seq<string>, f: TabFrames -> nat, k: nat)
    requires HasTabs(s, tabIds)
    ensures AllFrom(TabFieldOf(s, tabIds, f), k) <==> TabsAtLeast(s, tabIds, f, k)
  {
    var values := TabFieldOf(s, tabIds, f);
    forall j | 0 <= j < |tabIds| ensures f(s.tabs[tabIds[j]]) in values {
      assert values[j] in values;
    }
  }

  lemma {:induction false} TabFieldHas(samples: seq<Sample>, tabIds: seq<string>, f: TabFrames -> nat, k: nat)
    requires forall s <- samples :: HasTabs(s, tabIds)
    ensures AllFrom(TabField(samples, tabIds, f), k) <==> AllSamples(samples, tabIds, f, k)
    ensures samples != [] && tabIds != [] ==> TabField(samples, tabIds, f) != []
  {
    hide HasTabs, TabsAtLeast;
    if samples == [] {
    } else {
      var n := |samples| - 1;
      assert samples[n] in samples;
      assert forall s <- samples[..n] :: s in samples;
      TabFieldHas(samples[..n], tabIds, f, k);
      TabFieldOfHas(samples[n], tabIds, f, k);
      AllFromAdds(TabField(samples[..n], tabIds, f), TabFieldOf(samples[n], tabIds, f), k);
      AllSamplesAdds(samples[..n], samples[n], tabIds, f, k);
      assert samples == samples[..n] + [samples[n]];
    }
  }

  predicate TabsPresent(o: Observation) {
    forall s <- o.samples :: HasTabs(s, o.identity.tabIds)
  }

  function SizeChecks(o: Observation): CheckTable
    requires TabsPresent(o)
  {
    var tabCount := Least(FieldOf(o.samples, (s: Sample) => s.tabCount));
    var width := Least(TabField(o.samples, o.identity.tabIds, (t: TabFrames) => t.width));
    var height := Least(TabField(o.samples, o.identity.tabIds, (t: TabFrames) => t.height));
    [("tab_count", tabCount >= MIN_MEDIA_TAB_COUNT),
     ("immutable_tab_set", |o.identity.tabIds| == tabCount && |o.identity.tabIds| >= MIN_MEDIA_TAB_COUNT),
     ("viewport", Least(FieldOf(o.samples, (s: Sample) => s.viewportWidth)) >= 1920
                  && Least(FieldOf(o.samples, (s: Sample) => s.viewportHeight)) >= 1080),
     ("five_tab_source_resolution", width >= 1920 && height >= 1080)]
  }

  /** Every view and every tab of every sample has at least full resolution. */
  predicate FullSize(o: Observation)
    requires TabsPresent(o)
  {
    && (forall s <- o.samples :: s.viewportWidth >= 1920 && s.viewportHeight >= 1080)
    && (forall s <- o.samples :: TabsAtLeast(s, o.identity.tabIds, (t: TabFrames) => t.width, 1920))
    && (forall s <- o.samples :: TabsAtLeast(s, o.identity.tabIds, (t: TabFrames) => t.height, 1080))
  }

  /** An admitted stream always has five tabs or more, the same ones throughout. */
  function SizeCriteria(o: Observation): CheckTable
    requires TabsPresent(o)
  {
    [("tab_count", true), ("immutable_tab_set", true),
     ("viewport", forall s <- o.samples :: s.viewportWidth >= 1920 && s.viewportHeight >= 1080),
     ("five_tab_source_resolution",
      && (forall s <- o.samples :: TabsAtLeast(s, o.identity.tabIds, (t: TabFrames) => t.width, 1920))
      && (forall s <- o.samples :: TabsAtLeast(s, o.identity.tabIds, (t: TabFrames) => t.height, 1080)))]
  }

  lemma LeastField(samples: seq<Sample>, f: Sample -> nat, k: nat)
    requires k > 0 && samples != []
    ensures Least(FieldOf(samples, f)) >= k <==> forall s <- samples :: f(s) >= k
  {
    var values := FieldOf(samples, f);
    LeastIsLeast(values, k);
    forall s | s in samples ensures (forall i :: 0 <= i < |values| ==> values[i] >= k) ==> f(s) >= k {
      var i :| 0 <= i < |samples| && samples[i] == s;
      assert values[i] == f(s);
    }
    assert forall i :: 0 <= i < |samples| ==> samples[i] in samples;
  }

  lemma LeastTabField(o: Observation, f: TabFrames -> nat, k: nat)
    requires k > 0 && o.samples != [] && o.identity.tabIds != [] && TabsPresent(o)
    ensures Least(TabField(o.samples, o.identity.tabIds, f)) >= k
      <==> forall s <- o.samples :: TabsAtLeast(s, o.identity.tabIds, f, k)
  {
    var values := TabField(o.samples, o.identity.tabIds, f);
    TabFieldHas(o.samples, o.identity.tabIds, f, k);
    LeastIsLeast(values, k);
    assert forall i :: 0 <= i < |values| ==> values[i] in values;
  }

  lemma TabsArePresent(o: Observation)
    requires Sound(o)
    ensures TabsPresent(o) && forall s <- o.samples :: s.tabCount == |o.identity.tabIds|
  {
    hide Follows;
    forall s | s in o.samples ensures s.tabCount == |o.identity.tabIds| && HasTabs(s, o.identity.tabIds) {
      var k :| 0 <= k < |o.samples| && o.samples[k] == s;
      assert ValidSample(o.samples[k], o.identity);
    }
  }

  lemma SizeMeaning(o: Observation)
    requires Sound(o) && o.samples != []
    ensures TabsPresent(o) && (AllMet(SizeChecks(o)) <==> FullSize(o))
    ensures SizeChecks(o) == SizeCriteria(o)
  {
    hide Least, FieldOf, TabField, Coherent, NeverBack, HasTabs, TabsAtLeast;
    TabsArePresent(o);
    var c, n := SizeChecks(o), |o.identity.tabIds|;
    LeastField(o.samples, (s: Sample) => s.tabCount, MIN_MEDIA_TAB_COUNT);
    LeastField(o.samples, (s: Sample) => s.tabCount, n);
    LeastField(o.samples, (s: Sample) => s.tabCount, n + 1);
    assert o.samples[0] in o.samples;
    LeastField(o.samples, (s: Sample) => s.viewportWidth, 1920);
    LeastField(o.samples, (s: Sample) => s.viewportHeight, 1080);
    LeastTabField(o, (t: TabFrames) => t.width, 1920);
    LeastTabField(o, (t: TabFrames) => t.height, 1080);
    assert c[0].1 && c[1].1;
    assert AllMet(c) <==> c[0].1 && c[1].1 && c[2].1 && c[3].1;
  }
}
