/** Producer and guard agree: everything the one accepts, the other accepts in the same boot and time window. */
module Agreement {
  import opened Wrappers
  import opened Text
  import opened Claims
  import opened Materializer
  import opened Guard

  /** An entry the producer writes passes the guard's own, differently worded, entry checks. */
  lemma ProducedEntryIsValid(kv: KeyValue, revision: int)
    requires AdmitKeyValue(kv, revision).Ok?
    ensures ValidateEntry(AdmitKeyValue(kv, revision).value, revision).Ok?
  {
    hide AdmitRecord, PrintClaim, IsDecimal, Decimal, ClaimKey;
    var lease := StrictUint(kv.lease, MAX_INT64).value;
    DecimalIsAdmitted(lease);
    AdmittedClaimIsShort(KeyComponents(kv.key.value).value, kv.value.value);
  }

  lemma ProducedSourceIsValid(h: Header)
    requires AdmitHeader(h).Ok?
    ensures CheckSource(Some(AdmitHeader(h).value)) == Ok(AdmitHeader(h).value.revision.i)
  {
    hide IsDecimal, Decimal;
    DecimalIsAdmitted(StrictUint(h.clusterId, MAX_UINT64).value);
    DecimalIsAdmitted(StrictUint(h.memberId, MAX_UINT64).value);
  }

  /** Sorting by key keeps the leases distinct although it compares keys only. */
  lemma LeasesSurviveSorting(sorted: seq<Entry>, original: seq<Entry>)
    requires Keyed(sorted) && StrictlySorted(sorted) && Keyed(original) && DistinctEntries(original)
    requires multiset(sorted) == multiset(original)
    ensures DistinctLeases(sorted)
  {
    forall i, j | 0 <= i < j < |sorted| ensures sorted[i].leaseId != sorted[j].leaseId {
      LessIsTotal(sorted[i].key.s, sorted[j].key.s);
      assert sorted[i] in multiset(original) && sorted[j] in multiset(original);
      var p :| 0 <= p < |original| && original[p] == sorted[i];
      var q :| 0 <= q < |original| && original[q] == sorted[j];
      assert p < q || q < p;
    }
  }

  lemma ProducedClaimsAreAdmitted(r: Range, claims: seq<Entry>)
    requires RangeAdmissible(r) && SortedEntriesOf(r, claims)
    ensures var revision := AdmitHeader(r.header).value.revision.i;
      EachValid(claims, revision) && AdmitClaims(Some(claims), revision) == Ok(ClaimsOf(claims, revision))
  {
    var revision := AdmitHeader(r.header).value.revision.i;
    var original := EntriesOf(r.kvs, revision);
    assert |claims| == |multiset(claims)| == |original|;
    forall i | 0 <= i < |claims| ensures ValidateEntry(claims[i], revision).Ok? {
      assert claims[i] in multiset(original);
      var p :| 0 <= p < |original| && original[p] == claims[i];
      ProducedEntryIsValid(r.kvs[p], revision);
    }
    OriginalIsKeyed(r.kvs, revision);
    LeasesSurviveSorting(claims, original);
  }

  lemma OriginalIsKeyed(kvs: seq<KeyValue>, revision: int)
    requires EachAdmitted(kvs, revision)
    ensures Keyed(EntriesOf(kvs, revision))
  {}

  /** The exact set of clock readings and boots at which a produced pair is fresh. */
  predicate Fresh(producerBoot: BootId, generated: int, validitySeconds: int, guardBoot: BootId, now: int,
      maxAgeMs: int)
  {
    && producerBoot == guardBoot
    && 1 <= generated && generated + 1000 * validitySeconds <= MAX_INT64
    && generated - MAX_CLOCK_SKEW_MS <= now <= generated + 1000 * validitySeconds
    && now - generated <= maxAgeMs
  }

  lemma FreshnessIsTheTimeCheck(key: Secret, producerBoot: BootId, source: Source, claims: seq<Entry>, generated: int,
                                validitySeconds: int, guardBoot: BootId, now: int, maxAgeMs: int)
    requires 1 <= validitySeconds <= MAX_VALIDITY_SECONDS
    ensures var verdict := CheckTimes(MakeSnapshot(key, producerBoot, source, claims, generated, validitySeconds), now,
                                      BootAttestation(key, guardBoot), maxAgeMs);
      && (verdict.Ok? <==> Fresh(producerBoot, generated, validitySeconds, guardBoot, now, maxAgeMs))
      && (verdict.Ok? ==> verdict.value == generated)
      && (verdict.Err? ==> verdict.code in {Stale, Malformed})
  {}

  /** A sealed pair passes authentication and the commitment check, so its snapshot and the claims decide. */
  lemma SealedPairDecision(key: Secret, boot: Scalar, host: Claim, s: Snapshot, now: int, maxAgeMs: int)
    requires s.source.Some?
    ensures var verdict := SnapshotVerdict(s, now, boot, maxAgeMs);
      Decide(key, boot, host, Some(SnapshotFile(key, s)), Some(CommitmentFile(key, s)), now, maxAgeMs) ==
        if verdict.Ok? && !NoCollision(host, verdict.value.claims) then Err(Collision) else verdict
  {
    var verdict := SnapshotVerdict(s, now, boot, maxAgeMs);
    if verdict.Ok? {
      assert VerifyCommitment(MakeCommitment(key, s), SnapshotTag(key, s), boot, verdict.value.revision,
                              verdict.value.generated) == Ok(());
    }
  }

  /** What the range parser may return. */
  ghost predicate FromRange(source: Source, claims: seq<Entry>) {
    exists r :: RangeAdmissible(r) && AdmitHeader(r.header) == Ok(source) && SortedEntriesOf(r, claims)
  }

  lemma ParsedRangeIsAdmitted(source: Source, claims: seq<Entry>)
    requires FromRange(source, claims)
    ensures source.revision.Int? && EachValid(claims, source.revision.i)
    ensures CheckSource(Some(source)) == Ok(source.revision.i)
    ensures AdmitClaims(Some(claims), source.revision.i) == Ok(ClaimsOf(claims, source.revision.i))
  {
    var r :| RangeAdmissible(r) && AdmitHeader(r.header) == Ok(source) && SortedEntriesOf(r, claims);
    ProducedSourceIsValid(r.header);
    ProducedClaimsAreAdmitted(r, claims);
  }

  /** An empty range is admitted, and while it is fresh every host is safe: no host needs a claim of its own. */
  lemma EmptyRangeAcceptsEveryHost(h: Header, key: Secret, boot: BootId, generated: int, validitySeconds: int, now: int,
                                   maxAgeMs: int, host: Claim)
    requires AdmitHeader(h).Ok? && 1 <= validitySeconds <= MAX_VALIDITY_SECONDS
    requires Fresh(boot, generated, validitySeconds, boot, now, maxAgeMs)
    ensures var source := AdmitHeader(h).value;
      var s := MakeSnapshot(key, boot, source, [], generated, validitySeconds);
      && FromRange(source, []) && source.revision.Int?
      && Decide(key, BootAttestation(key, boot), host, Some(SnapshotFile(key, s)), Some(CommitmentFile(key, s)), now,
         maxAgeMs)
           == Ok(Evidence(source.revision.i, [], generated))
  {
    var source, r := AdmitHeader(h).value, Range(h, Int(0), []);
    assert RangeAdmissible(r) && SortedEntriesOf(r, []);
    ProducerGuardAgreement(source, [], key, boot, generated, validitySeconds, boot, now, maxAgeMs, host);
    assert ClaimsOf([], source.revision.i) == [];
  }

  /** For every admitted range, both files pass every guard check exactly when fresh, and yield the same evidence. */
  lemma ProducerGuardAgreement(source: Source, claims: seq<Entry>, key: Secret, producerBoot: BootId, generated: int,
                               validitySeconds: int, guardBoot: BootId, now: int, maxAgeMs: int, host: Claim)
    requires FromRange(source, claims) && 1 <= validitySeconds <= MAX_VALIDITY_SECONDS
    ensures source.revision.Int? && EachValid(claims, source.revision.i)
    ensures
      var s := MakeSnapshot(key, producerBoot, source, claims, generated, validitySeconds);
      var verdict := Decide(key, BootAttestation(key, guardBoot), host,
                            Some(SnapshotFile(key, s)), Some(CommitmentFile(key, s)), now, maxAgeMs);
      if !Fresh(producerBoot, generated, validitySeconds, guardBoot, now, maxAgeMs) then
        verdict.Err? && verdict.code in {Stale, Malformed}
      else if !NoCollision(host, ClaimsOf(claims, source.revision.i)) then
        verdict == Err(Collision)
      else
        verdict == Ok(Evidence(source.revision.i, ClaimsOf(claims, source.revision.i), generated))
  {
    ParsedRangeIsAdmitted(source, claims);
    FreshnessIsTheTimeCheck(key, producerBoot, source, claims, generated, validitySeconds, guardBoot, now, maxAgeMs);
    var s := MakeSnapshot(key, producerBoot, source, claims, generated, validitySeconds);
    SealedPairDecision(key, BootAttestation(key, guardBoot), host, s, now, maxAgeMs);
  }
}
