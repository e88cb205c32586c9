/** Streams as an endpoint sends them: exactly these are admitted, each as the observation it was made from. */
module StreamPrint {
  import opened Wrappers
  import opened Telemetry
  import opened Checks

  function Body(samples: seq<Sample>, times: seq<real>): (r: seq<Receipt>)
    requires |samples| == |times|
    ensures |r| == |samples|
    ensures forall k :: 0 <= k < |r| ==> r[k] == Receipt(SampleRecord(samples[k]), times[k])
  {
    seq(|samples|, k requires 0 <= k < |samples| => Receipt(SampleRecord(samples[k]), times[k]))
  }

  /** Header, samples, and a marker that echoes the challenge, counts the samples and covers all records before it. */
  function StreamOf(o: Observation, start: real, end: real): (r: seq<Receipt>)
    requires |o.samples| == |o.receipts|
    ensures |r| == |o.samples| + 2
  {
    var before := [Receipt(HeaderRecord(o.identity), start)] + Body(o.samples, o.receipts);
    before + [Receipt(CompleteRecord(o.status, o.identity.nonce, |o.samples|, Stamp(RecordsOf(before))), end)]
  }

  lemma PartsOfStream(o: Observation, start: real, end: real)
    requires |o.samples| == |o.receipts|
    ensures var r := StreamOf(o, start, end); var last := |o.samples| + 1;
      && r[0] == Receipt(HeaderRecord(o.identity), start) && r[1..last] == Body(o.samples, o.receipts)
      && r[..last] == [r[0]] + Body(o.samples, o.receipts)
      && r[last] ==
           Receipt(CompleteRecord(o.status, o.identity.nonce, |o.samples|, Stamp(RecordsOf(r[..last]))), end)
      && (forall x <- Body(o.samples, o.receipts) :: x.record.SampleRecord?)
      && SamplesOf(Body(o.samples, o.receipts)) == o.samples && TimesOf(Body(o.samples, o.receipts)) == o.receipts
  {
    var r, before := StreamOf(o, start, end), [Receipt(HeaderRecord(o.identity), start)] + Body(o.samples, o.receipts);
    assert r[..|before|] == before && before[1..] == Body(o.samples, o.receipts);
  }

  /** What is sent is read: a stream is admitted exactly if its identity, samples and receipts are good and it fits. */
  lemma StreamReadsBack(o: Observation, start: real, end: real, nonce: string)
    requires |o.samples| == |o.receipts|
    ensures var r := StreamOf(o, start, end);
      && (Admissible(r, nonce) <==>
           && GoodIdentity(o.identity, nonce) && Coherent(o.samples, o.identity) && NeverBack(o.receipts)
           && |o.samples| <= 4094)
      && (Admissible(r, nonce) ==> Observed(r, nonce) == o)
  {
    hide GoodIdentity, Coherent, NeverBack, StreamOf;
    PartsOfStream(o, start, end);
    assert GoodIdentity(o.identity, nonce) ==> o.identity.nonce == nonce by {
      NonceOfIdentity(o.identity, nonce);
    }
  }

  lemma NonceOfIdentity(identity: Identity, nonce: string)
    ensures GoodIdentity(identity, nonce) ==> identity.nonce == nonce
  {}

  /** And nothing else is admitted: an admitted stream is the one sent for its observation. */
  lemma AdmittedStreamIsSent(stream: seq<Receipt>, nonce: string)
    requires Admissible(stream, nonce)
    ensures var o := Observed(stream, nonce);
      |o.samples| == |o.receipts| && stream == StreamOf(o, stream[0].at, stream[|stream| - 1].at)
  {
    hide GoodIdentity, Coherent, NeverBack;
    var o, last := Observed(stream, nonce), |stream| - 1;
    NonceOfIdentity(stream[0].record.identity, nonce);
    var body := stream[1..last];
    forall k | 0 <= k < |body| ensures body[k] == Body(o.samples, o.receipts)[k] {
      assert body[k] in body;
    }
    assert body == Body(o.samples, o.receipts);
    var before := stream[..last];
    assert before == [stream[0]] + body && stream == before + [stream[last]];
    assert stream[0] == Receipt(HeaderRecord(o.identity), stream[0].at);
    assert stream[last].record == CompleteRecord(o.status, nonce, |o.samples|, Stamp(RecordsOf(before)));
  }

  // ---------- what coherence means over the whole stream

  /** From any sample to any later one: time moves on and no counter goes back, those of the tabs included. */
  predicate Later(a: Sample, b: Sample, tabIds: seq<string>) {
    && a.elapsedMs < b.elapsedMs && a.framesReceived <= b.framesReceived && a.pointerUpdates <= b.pointerUpdates
    && a.fullUploads <= b.fullUploads && a.partialUploads <= b.partialUploads && a.partialRects <= b.partialRects
    && a.repaints <= b.repaints && a.reconnects <= b.reconnects
    && forall id <- tabIds :: id in a.tabs && id in b.tabs && a.tabs[id].presented <= b.tabs[id].presented
  }

  /** A sample shows one of the tabs exactly if something is visible, with the pointer on the view. */
  ghost predicate Plausible(s: Sample, tabIds: seq<string>) {
    && (forall id :: id in s.tabs <==> id in tabIds) && s.tabCount == |tabIds|
    && (s.visible <==> s.visibleTab.Some?) && (s.visibleTab.Some? ==> s.visibleTab.value in tabIds)
    && s.pointerX < s.viewportWidth && s.pointerY < s.viewportHeight
    && s.fullUploads + s.partialUploads <= s.framesReceived && s.partialUploads <= s.partialRects
    && (forall v :: v in s.navigationMs || v in s.sessionMs ==> 1 <= v <= 600_000)
    && |s.navigationMs| <= 128 && |s.sessionMs| <= 128
    && (forall id :: id in s.tabs ==> InView(s.tabs[id].width, s.tabs[id].height))
    && InView(s.viewportWidth, s.viewportHeight)
    && (s.cpu.Some? ==> s.cpu.value <= 100_000) && (s.gpu.Some? ==> s.gpu.value <= 100_000)
    && s.elapsedMs <= 86_400_000 && s.maxFrameGapMs <= 60_000 && s.framesReceived <= 100_000_000
    && (forall id :: id in s.tabs ==> s.tabs[id].presented <= 100_000_000)
    && forall n :: n in [s.pointerUpdates, s.reconnects, s.fullUploads, s.partialRects, s.repaints] ==> n <= 10_000_000
  }

  /** A picture has an extent, and no side over 16,384 pixels. */
  predicate InView(width: nat, height: nat) {
    0 < width <= 16_384 && 0 < height <= 16_384
  }

  lemma {:induction false} CountersNeverGoBack(samples: seq<Sample>, identity: Identity, i: nat, j: nat)
    requires Coherent(samples, identity) && i < j < |samples|
    ensures Later(samples[i], samples[j], identity.tabIds)
  {
    hide Latencies;
    assert Follows(samples[j - 1], samples[j], identity.tabIds);
    assert ValidSample(samples[j - 1], identity) && ValidSample(samples[j], identity);
    if i == j - 1 {
    } else {
      CountersNeverGoBack(samples, identity, i, j - 1);
    }
  }

  /** An admitted observation is plausible everywhere and moves forward from any sample to any later one. */
  lemma AdmittedObservationMeans(stream: seq<Receipt>, nonce: string, i: nat, j: nat)
    requires Admissible(stream, nonce) && i < j < |Observed(stream, nonce).samples|
    ensures var o := Observed(stream, nonce);
      && o.identity.nonce == nonce && 5 <= |o.identity.tabIds| <= 16 && 30 <= o.identity.targetFps <= 240
      && Plausible(o.samples[i], o.identity.tabIds) && Plausible(o.samples[j], o.identity.tabIds)
      && Later(o.samples[i], o.samples[j], o.identity.tabIds) && o.receipts[i] <= o.receipts[j]
      && o.samples[0].navigationMs == [] && o.samples[0].sessionMs == []
  {
    hide Latencies, Follows, Later;
    var o := Observed(stream, nonce);
    CountersNeverGoBack(o.samples, o.identity, i, j);
    ClockNeverGoesBack(o.receipts, i, j);
    assert ValidSample(o.samples[i], o.identity) && ValidSample(o.samples[j], o.identity);
  }

  lemma {:induction false} ClockNeverGoesBack(receipts: seq<real>, i: nat, j: nat)
    requires NeverBack(receipts) && i <= j < |receipts|
    ensures receipts[i] <= receipts[j]
  {
    if i == j {
    } else {
      ClockNeverGoesBack(receipts, i, j - 1);
    }
  }
}
