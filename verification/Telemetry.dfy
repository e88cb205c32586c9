/** The live performance stream: decoded records, what a sample must satisfy, and the parser's one pass. */
module Telemetry {
  import opened Wrappers

  datatype TabFrames = TabFrames(presented: nat, width: nat, height: nat)
  datatype Connection = Connected | Reconnecting | Failed | Unavailable

  datatype Sample = Sample(
    elapsedMs: nat, tabCount: nat, viewportWidth: nat, viewportHeight: nat, framesReceived: nat, maxFrameGapMs: nat,
    pointerUpdates: nat, navigationMs: seq<nat>, sessionMs: seq<nat>, reconnects: nat, state: Connection,
    tabs: map<string, TabFrames>, visible: bool, visibleTab: Option<string>, pointerX: nat, pointerY: nat,
    fullUploads: nat, partialUploads: nat, partialRects: nat, repaints: nat, cpu: Option<nat>, gpu: Option<nat>)

  /** The stream's header after its identity checks: nonce, tab identities and the frame rate it claims to support. */
  datatype Identity = Identity(nonce: string, tabIds: seq<string>, targetFps: nat)

  datatype Status = CompletedRun | FailedRun | UnavailableRun

  /** `Stamp` is a digest as a term: two are equal only if the streams they cover are. */
  datatype Stamp = Stamp(records: seq<Record>)

  datatype Record =
    | HeaderRecord(identity: Identity)
    | SampleRecord(sample: Sample)
    | CompleteRecord(status: Status, nonce: string, sampleCount: nat, digest: Stamp)
    | OtherRecord

  /** A record with the collector's clock reading, in seconds. */
  datatype Receipt = Receipt(record: Record, at: real)

  datatype Observation = Observation(samples: seq<Sample>, receipts: seq<real>, status: Status, identity: Identity)

  const MAX_STREAM_RECORDS := 4096
  const MAX_LATENCIES_PER_SAMPLE := 128
  const MAX_LATENCY_SAMPLES := 10_000
  const MAX_DURATION_MS := 24 * 60 * 60 * 1000
  const MAX_TABS := 16
  const MIN_MEDIA_TAB_COUNT := 5
  const MAX_DIMENSION := 16_384
  const MAX_FRAME_COUNTER := 100_000_000
  const MAX_COUNTER := 10_000_000
  const MAX_STALL_MS := 60_000
  const MAX_LATENCY_MS := 600_000
  const MAX_FPS := 240
  const MIN_SUPPORTED_TARGET_FPS := 30
  const MAX_HOST_LOAD_PERMILLE := 100_000

  // ---------- one record

  predicate GoodIdentity(identity: Identity, nonce: string) {
    && identity.nonce == nonce && MIN_MEDIA_TAB_COUNT <= |identity.tabIds| <= MAX_TABS
    && MIN_SUPPORTED_TARGET_FPS <= identity.targetFps <= MAX_FPS
    && forall i, j :: 0 <= i < j < |identity.tabIds| ==> identity.tabIds[i] != identity.tabIds[j]
  }

  predicate GoodLatencies(values: seq<nat>) {
    |values| <= MAX_LATENCIES_PER_SAMPLE && forall v <- values :: 1 <= v <= MAX_LATENCY_MS
  }

  predicate Bounded(value: Option<nat>, limit: nat) {
    value.Some? ==> value.value <= limit
  }

  predicate ValidTabs(tabs: map<string, TabFrames>, tabIds: seq<string>) {
    && tabs.Keys == (set id <- tabIds)
    && forall id <- tabs.Keys ::
         tabs[id].presented <= MAX_FRAME_COUNTER && 1 <= tabs[id].width <= MAX_DIMENSION
           && 1 <= tabs[id].height <= MAX_DIMENSION
  }

  predicate ValidSample(s: Sample, identity: Identity) {
    && s.elapsedMs <= MAX_DURATION_MS && s.tabCount == |identity.tabIds|
    && s.viewportWidth <= MAX_DIMENSION && s.viewportHeight <= MAX_DIMENSION
    && s.pointerX < s.viewportWidth && s.pointerY < s.viewportHeight
    && s.framesReceived <= MAX_FRAME_COUNTER && s.maxFrameGapMs <= MAX_STALL_MS && s.pointerUpdates <= MAX_COUNTER
    && GoodLatencies(s.navigationMs) && GoodLatencies(s.sessionMs) && s.reconnects <= MAX_COUNTER
    && ValidTabs(s.tabs, identity.tabIds)
    && (if s.visible then s.visibleTab.Some? && s.visibleTab.value in identity.tabIds else s.visibleTab.None?)
    && s.fullUploads <= MAX_COUNTER && s.partialUploads <= s.partialRects <= MAX_COUNTER && s.repaints <= MAX_COUNTER
    && s.fullUploads + s.partialUploads <= s.framesReceived
    && Bounded(s.cpu, MAX_HOST_LOAD_PERMILLE) && Bounded(s.gpu, MAX_HOST_LOAD_PERMILLE)
  }

  /** Time moves on, and no counter goes back. */
  predicate Follows(a: Sample, b: Sample, tabIds: seq<string>) {
    && a.elapsedMs < b.elapsedMs && a.framesReceived <= b.framesReceived && a.pointerUpdates <= b.pointerUpdates
    && a.fullUploads <= b.fullUploads && a.partialUploads <= b.partialUploads && a.partialRects <= b.partialRects
    && a.repaints <= b.repaints && a.reconnects <= b.reconnects
    && forall id <- tabIds :: id in a.tabs && id in b.tabs ==> a.tabs[id].presented <= b.tabs[id].presented
  }

  // ---------- the whole stream

  function Latencies(samples: seq<Sample>): nat {
    if samples == [] then 0
    else
      var n := |samples| - 1;
      Latencies(samples[..n]) + |samples[n].navigationMs| + |samples[n].sessionMs|
  }

  /** Valid samples one after the other, the first one without latencies. */
  predicate Coherent(samples: seq<Sample>, identity: Identity) {
    && (forall k :: 0 <= k < |samples| ==> ValidSample(samples[k], identity))
    && (forall k :: 0 < k < |samples| ==> Follows(samples[k - 1], samples[k], identity.tabIds))
    && (samples != [] ==> samples[0].navigationMs == [] && samples[0].sessionMs == [])
    && Latencies(samples) <= MAX_LATENCY_SAMPLES
  }

  predicate NeverBack(receipts: seq<real>) {
    forall k :: 0 < k < |receipts| ==> receipts[k - 1] <= receipts[k]
  }

  function RecordsOf(stream: seq<Receipt>): (r: seq<Record>)
    ensures |r| == |stream|
  {
    seq(|stream|, i requires 0 <= i < |stream| => stream[i].record)
  }

  function SamplesOf(stream: seq<Receipt>): (r: seq<Sample>)
    requires forall x <- stream :: x.record.SampleRecord?
    ensures |r| == |stream| && forall k :: 0 <= k < |stream| ==> r[k] == stream[k].record.sample
  {
    seq(|stream|, i requires 0 <= i < |stream| => assert stream[i] in stream; stream[i].record.sample)
  }

  function TimesOf(stream: seq<Receipt>): (r: seq<real>)
    ensures |r| == |stream| && forall k :: 0 <= k < |stream| ==> r[k] == stream[k].at
  {
    seq(|stream|, i requires 0 <= i < |stream| => stream[i].at)
  }

  predicate GoodBody(body: seq<Receipt>, identity: Identity) {
    && (forall x <- body :: x.record.SampleRecord?) && Coherent(SamplesOf(body), identity) && NeverBack(TimesOf(body))
  }

  /** The terminal marker answers the challenge and covers exactly the records before it. */
  predicate Closes(end: Record, before: seq<Receipt>, nonce: string) {
    end.CompleteRecord? && end.nonce == nonce && end.sampleCount == |before| - 1
      && end.digest == Stamp(RecordsOf(before))
  }

  /** Header, coherent samples, one terminal marker, and nothing after it. */
  predicate Admissible(stream: seq<Receipt>, nonce: string) {
    && 2 <= |stream| <= MAX_STREAM_RECORDS
    && stream[0].record.HeaderRecord? && GoodIdentity(stream[0].record.identity, nonce)
    && var last := |stream| - 1;
       GoodBody(stream[1..last], stream[0].record.identity) && Closes(stream[last].record, stream[..last], nonce)
  }

  function Observed(stream: seq<Receipt>, nonce: string): Observation
    requires Admissible(stream, nonce)
  {
    var last := |stream| - 1;
    Observation(SamplesOf(stream[1..last]), TimesOf(stream[1..last]), stream[last].record.status,
      stream[0].record.identity)
  }

  /** The loop's variables after the records so far: all of them samples, or a marker at the end. */
  predicate Reads(stream: seq<Receipt>, i: nat, nonce: string, samples: seq<Sample>, receipts: seq<real>,
      status: Option<Status>)
    requires 1 <= i <= |stream| && stream[0].record.HeaderRecord?
  {
    var last := if status.Some? then i - 1 else i;
    && 1 <= last && GoodBody(stream[1..last], stream[0].record.identity)
    && samples == SamplesOf(stream[1..last]) && receipts == TimesOf(stream[1..last])
    && (status.Some? ==>
         Closes(stream[last].record, stream[..last], nonce) && stream[last].record.status == status.value)
  }

  /** A sample that may come next. */
  predicate MayFollow(samples: seq<Sample>, receipts: seq<real>, s: Sample, at: real, identity: Identity) {
    && ValidSample(s, identity)
    && (samples == [] ==> s.navigationMs == [] && s.sessionMs == [])
    && (samples != [] ==> Follows(samples[|samples| - 1], s, identity.tabIds))
    && (receipts != [] ==> receipts[|receipts| - 1] <= at)
    && Latencies(samples) + |s.navigationMs| + |s.sessionMs| <= MAX_LATENCY_SAMPLES
  }

  lemma ListsGrow(body: seq<Receipt>, x: Receipt)
    requires (forall y <- body :: y.record.SampleRecord?) && x.record.SampleRecord?
    ensures (forall y <- body + [x] :: y.record.SampleRecord?)
      && SamplesOf(body + [x]) == SamplesOf(body) + [x.record.sample]
    ensures TimesOf(body + [x]) == TimesOf(body) + [x.at]
  {}

  lemma CoherenceGrows(samples: seq<Sample>, s: Sample, identity: Identity)
    requires Coherent(samples, identity)
    ensures Coherent(samples + [s], identity) <==>
      && ValidSample(s, identity)
      && (samples == [] ==> s.navigationMs == [] && s.sessionMs == [])
      && (samples != [] ==> Follows(samples[|samples| - 1], s, identity.tabIds))
      && Latencies(samples) + |s.navigationMs| + |s.sessionMs| <= MAX_LATENCY_SAMPLES
  {
    hide ValidSample, Follows;
    var n, longer := |samples|, samples + [s];
    assert longer[..n] == samples && longer[n] == s;
    assert n > 0 ==> longer[n - 1] == samples[n - 1];
    if Coherent(longer, identity) {
      assert ValidSample(longer[n], identity);
      assert n > 0 ==> Follows(longer[n - 1], longer[n], identity.tabIds);
    }
  }

  lemma ClockGrows(receipts: seq<real>, at: real)
    requires NeverBack(receipts)
    ensures NeverBack(receipts + [at]) <==> (receipts != [] ==> receipts[|receipts| - 1] <= at)
  {
    var n, longer := |receipts|, receipts + [at];
    assert n > 0 ==> longer[n - 1] == receipts[n - 1] && longer[n] == at;
    if NeverBack(longer) && n > 0 {
      assert longer[n - 1] <= longer[n];
    }
  }

  lemma BodyGrows(body: seq<Receipt>, x: Receipt, identity: Identity)
    requires GoodBody(body, identity) && x.record.SampleRecord?
    ensures GoodBody(body + [x], identity) <==>
      MayFollow(SamplesOf(body), TimesOf(body), x.record.sample, x.at, identity)
    ensures (forall y <- body + [x] :: y.record.SampleRecord?)
      && SamplesOf(body + [x]) == SamplesOf(body) + [x.record.sample]
    ensures TimesOf(body + [x]) == TimesOf(body) + [x.at]
  {
    hide Coherent, NeverBack, ValidSample, Follows;
    ListsGrow(body, x);
    CoherenceGrows(SamplesOf(body), x.record.sample, identity);
    ClockGrows(TimesOf(body), x.at);
  }

  lemma SampleWasGood(body: seq<Receipt>, x: Receipt, identity: Identity)
    requires GoodBody(body + [x], identity)
    ensures GoodBody(body, identity)
  {
    hide ValidSample, Follows;
    var n, longer := |body|, body + [x];
    assert forall y <- body :: y in longer;
    var all, samples := SamplesOf(longer), SamplesOf(body);
    assert samples == all[..n] && TimesOf(body) == TimesOf(longer)[..n];
    forall k | 0 < k < n
      ensures Follows(samples[k - 1], samples[k], identity.tabIds) && TimesOf(body)[k - 1] <= TimesOf(body)[k]
    {
      assert Follows(all[k - 1], all[k], identity.tabIds) && TimesOf(longer)[k - 1] <= TimesOf(longer)[k];
    }
  }

  lemma {:induction false} BodyStays(body: seq<Receipt>, longer: seq<Receipt>, identity: Identity)
    requires body <= longer && GoodBody(longer, identity)
    ensures GoodBody(body, identity)
    decreases |longer|
  {
    hide GoodBody;
    if body == longer {
    } else {
      var shorter := longer[..|longer| - 1];
      assert longer == shorter + [longer[|longer| - 1]];
      SampleWasGood(shorter, longer[|longer| - 1], identity);
      BodyStays(body, shorter, identity);
    }
  }

  /** In an admissible stream everything before the marker is a good body, however far one looks. */
  lemma AdmissiblePrefix(stream: seq<Receipt>, i: nat, nonce: string)
    requires 1 <= i < |stream| && Admissible(stream, nonce)
    ensures i < |stream| - 1 ==>
      stream[i].record.SampleRecord? && GoodBody(stream[1..i] + [stream[i]], stream[0].record.identity)
    ensures i == |stream| - 1 ==> Closes(stream[i].record, stream[..i], nonce)
  {
    hide Coherent, NeverBack, Closes;
    var last := |stream| - 1;
    if i < last {
      assert stream[1..last][i - 1] == stream[i];
      assert stream[1..i] + [stream[i]] == stream[1..i + 1] == stream[1..last][..i];
      BodyStays(stream[1..i + 1], stream[1..last], stream[0].record.identity);
    }
  }

  /** One more record of the loop. */
  lemma OneMoreRecord(stream: seq<Receipt>, i: nat, nonce: string, samples: seq<Sample>, receipts: seq<real>,
      status: Option<Status>)
    requires 1 <= i < |stream| && stream[0].record.HeaderRecord? && Reads(stream, i, nonce, samples, receipts, status)
    ensures var x := stream[i];
      && (status.Some? || x.record.HeaderRecord? || x.record.OtherRecord? ==> !Admissible(stream, nonce))
      && (status.None? && x.record.CompleteRecord? ==>
            if Closes(x.record, stream[..i], nonce)
            then Reads(stream, i + 1, nonce, samples, receipts, Some(x.record.status)) else !Admissible(stream, nonce))
      && (status.None? && x.record.SampleRecord? ==>
            if MayFollow(samples, receipts, x.record.sample, x.at, stream[0].record.identity)
            then Reads(stream, i + 1, nonce, samples + [x.record.sample], receipts + [x.at], None)
            else !Admissible(stream, nonce))
  {
    hide GoodBody, MayFollow, Closes;
    var x, identity := stream[i], stream[0].record.identity;
    if Admissible(stream, nonce) {
      AdmissiblePrefix(stream, i, nonce);
      if i > 1 {
        AdmissiblePrefix(stream, i - 1, nonce);
        CloserIsMarker(stream, i - 1, nonce);
      }
      CloserIsMarker(stream, i, nonce);
    }
    if status.None? && x.record.SampleRecord? {
      assert stream[1..i + 1] == stream[1..i] + [x];
      BodyGrows(stream[1..i], x, identity);
    }
  }

  lemma CloserIsMarker(stream: seq<Receipt>, i: nat, nonce: string)
    requires i < |stream|
    ensures Closes(stream[i].record, stream[..i], nonce) ==> stream[i].record.CompleteRecord?
  {}

  /** The parser admits exactly the admissible streams, and returns their samples in order. */
  method ParseRecords(stream: seq<Receipt>, nonce: string) returns (result: Option<Observation>)
    ensures result == if Admissible(stream, nonce) then Some(Observed(stream, nonce)) else None
  {
    hide GoodBody, Closes, ValidSample, Follows, Latencies;
    if stream == [] || |stream| > MAX_STREAM_RECORDS {
      return None;
    }
    if !stream[0].record.HeaderRecord? || !GoodIdentity(stream[0].record.identity, nonce) {
      return None;
    }
    var identity := stream[0].record.identity;
    var samples: seq<Sample>, receipts: seq<real>, status: Option<Status> := [], [], None;
    EmptyBody(stream, identity);
    for i := 1 to |stream|
      invariant Reads(stream, i, nonce, samples, receipts, status)
    {
      OneMoreRecord(stream, i, nonce, samples, receipts, status);
      if status.Some? {
        return None;
      }
      match stream[i].record {
        case CompleteRecord(s, _, _, _) =>
          if !Closes(stream[i].record, stream[..i], nonce) {
            return None;
          }
          status := Some(s);
        case SampleRecord(s) =>
          if !MayFollow(samples, receipts, s, stream[i].at, identity) {
            return None;
          }
          samples, receipts := samples + [s], receipts + [stream[i].at];
        case _ =>
          return None;
      }
    }
    if status.None? {
      NoMarker(stream, nonce);
      return None;
    }
    result := Some(Observation(samples, receipts, status.value, identity));
  }

  lemma EmptyBody(stream: seq<Receipt>, identity: Identity)
    requires stream != []
    ensures GoodBody(stream[1..1], identity) && SamplesOf(stream[1..1]) == [] && TimesOf(stream[1..1]) == []
  {}

  /** A stream without a terminal marker is not admitted. */
  lemma NoMarker(stream: seq<Receipt>, nonce: string)
    requires stream != [] && stream[0].record.HeaderRecord? && GoodBody(stream[1..|stream|], stream[0].record.identity)
    ensures !Admissible(stream, nonce)
  {
    if |stream| >= 2 {
      assert stream[1..|stream|][|stream| - 2] == stream[|stream| - 1];
    }
  }
}
