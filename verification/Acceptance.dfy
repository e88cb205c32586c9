/** What the guard's verdict says about the two files themselves, whoever put them there. */
module Acceptance {
  import opened Wrappers
  import opened Text
  import opened Claims
  import opened ClaimPrint
  import opened Materializer
  import opened Guard

  /** The commitment of a snapshot, with any spelling of its two numbers that Python takes for them. */
  predicate CommitsTo(c: Commitment, key: Secret, s: Snapshot) {
    && s.source.Some? && s.source.value.revision.Int? && s.generatedAt.Int?
    && c == MakeCommitment(key, s).(revision := c.revision, generatedAt := c.generatedAt)
    && EqualsInt(c.revision, s.source.value.revision.i) && EqualsInt(c.generatedAt, s.generatedAt.i)
  }

  /** A snapshot as a producer of this boot writes it: its own texts, a positive time and source, ordered entries. */
  ghost predicate WellMade(s: Snapshot, boot: Scalar) {
    && s.schema == Text(SNAPSHOT_SCHEMA) && s.producerBoot == boot
    && s.generatedAt.Int? && s.validUntil.Int? && 1 <= s.generatedAt.i < s.validUntil.i <= s.generatedAt.i + 30_000
    && s.source.Some? && WellMadeSource(s.source.value)
    && s.claims.Some? && |s.claims.value| <= 12
    && (forall e <- s.claims.value :: WellMadeEntry(e, s.source.value.revision.i))
    && forall i, j :: 0 <= i < j < |s.claims.value| ==> Before(s.claims.value[i], s.claims.value[j])
  }

  predicate Before(d: Entry, e: Entry) {
    d.Entry? && e.Entry? && d.key.Text? && e.key.Text? && Less(d.key.s, e.key.s) && d.leaseId != e.leaseId
  }

  predicate WellMadeSource(o: Source) {
    && o.kind == Text(SOURCE_KIND) && o.namespace == Text(CLAIM_PREFIX)
    && o.clusterId.Text? && IsDecimal(o.clusterId.s) && o.memberId.Text? && IsDecimal(o.memberId.s)
    && o.revision.Int? && o.revision.i > 0 && o.raftTerm.Int? && o.raftTerm.i > 0
  }

  /** The entry of some owner, leased, and not newer than the range. */
  ghost predicate WellMadeEntry(e: Entry, revision: int) {
    && e.Entry? && e.key.Text? && e.leaseId.Text? && IsDecimal(e.leaseId.s)
    && e.modRevision.Int? && 1 <= e.modRevision.i <= revision
    && exists o :: GoodOwner(o) && e.key.s == KeyOf(o)
         && e.claim == RecordOf(o).(schemaVersion := e.claim.schemaVersion)
  }

  lemma ValidEntryIsWellMade(e: Entry, revision: int)
    requires ValidateEntry(e, revision).Ok?
    ensures WellMadeEntry(e, revision)
  {
    hide KeyComponents, AdmitRecord, PrintClaim, IsDecimal, GoodOwner, KeyOf, RecordOf;
    ComponentsAreThree(e.key.s);
    var o := AdmittedRecordHasAnOwner(e.key.s, e.claim);
  }

  lemma ComponentsAreThree(key: string)
    ensures KeyComponents(key).Ok? ==> |KeyComponents(key).value| == 3
  {}

  lemma VerdictMeansWellMade(s: Snapshot, now: int, boot: Scalar, maxAgeMs: int)
    requires SnapshotVerdict(s, now, boot, maxAgeMs).Ok?
    ensures WellMade(s, boot)
    ensures s.generatedAt.i - 5_000 <= now <= s.validUntil.i && now - s.generatedAt.i <= maxAgeMs
    ensures var e := SnapshotVerdict(s, now, boot, maxAgeMs).value;
      e.revision == s.source.value.revision.i && e.generated == s.generatedAt.i
  {
    hide ValidateEntry, IsDecimal, Less;
    forall e | e in s.claims.value ensures WellMadeEntry(e, s.source.value.revision.i) {
      var i :| 0 <= i < |s.claims.value| && s.claims.value[i] == e;
      ValidEntryIsWellMade(e, s.source.value.revision.i);
    }
  }

  /**
    Whoever put the files there: if the guard says safe, one is the sealed file of a well-made snapshot of this boot,
    the other the sealed file of a commitment to it, and the clock is inside the windows.
  */
  lemma AcceptedFilesAreSealed(key: Secret, boot: Scalar, host: Claim, snapshotFile: Option<File>,
                               commitmentFile: Option<File>, now: int, maxAgeMs: int)
    returns (s: Snapshot, c: Commitment)
    requires Decide(key, boot, host, snapshotFile, commitmentFile, now, maxAgeMs).Ok?
    ensures WellMade(s, boot) && snapshotFile == Some(SnapshotFile(key, s))
    ensures CommitsTo(c, key, s)
    ensures commitmentFile == Some(Seal(COMMITMENT_SCHEMA, CommitmentDomain, key, CommitmentBody(c)))
    ensures s.generatedAt.i - 5_000 <= now <= s.validUntil.i && now - s.generatedAt.i <= maxAgeMs
  {
    hide SnapshotVerdict, NoCollision, WellMadeEntry, Before;
    s := snapshotFile.value.body.snapshot;
    c := commitmentFile.value.body.commitment;
    VerdictMeansWellMade(s, now, boot, maxAgeMs);
  }
}
