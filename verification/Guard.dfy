/** The guard: authenticates the two cached files, re-checks the snapshot and compares the local identity. */
module Guard {
  import opened Wrappers
  import opened Text
  import opened Claims

  const MAX_CLOCK_SKEW_MS := 5000
  const MAX_VALIDITY_MS := 30000

  /** What an accepted snapshot yields. */
  datatype Evidence = Evidence(revision: int, claims: seq<Claim>, generated: int)

  function VerifyEnvelope(f: File, schema: string, domain: Domain, key: Secret): Result<(Body, Scalar)> {
    var _ :- Need(f.Envelope? && f.schema == Text(schema), Malformed);
    var _ :- Need(f.algorithm == Text(AUTH_ALGORITHM) && f.keyId == Text(AUTH_KEY_ID) && ValidDigest(f.tag), Untrusted);
    var _ :- Need(f.tag == MacText(Mac(domain, key, f.body)), Untrusted);
    Ok((f.body, f.tag))
  }

  function StrictInt(value: Scalar, minimum: int, maximum: int): Result<int> {
    var _ :- Need(value.Int? && minimum <= value.i <= maximum, Malformed);
    Ok(value.i)
  }

  function ValidateEntry(e: Entry, revision: int): Result<Claim> {
    var _ :- Need(e.Entry? && e.key.Text?, Malformed);
    var components :- KeyComponents(e.key.s);
    var _ :- Need(e.leaseId.Text? && IsDecimal(e.leaseId.s), Malformed);
    var _ :- StrictInt(e.modRevision, 1, revision);
    var claim :- AdmitRecord(components, e.claim);
    var _ :- Need(|PrintClaim(e.claim.schemaVersion, claim)| <= MAX_CLAIM_VALUE_BYTES, Malformed);
    Ok(claim)
  }

  function CheckTimes(s: Snapshot, now: int, boot: Scalar, maxAgeMs: int): Result<int> {
    var _ :- Need(s.schema == Text(SNAPSHOT_SCHEMA), Malformed);
    var generated :- StrictInt(s.generatedAt, 1, MAX_INT64);
    var until :- StrictInt(s.validUntil, 1, MAX_INT64);
    var _ :- Need(generated <= now + MAX_CLOCK_SKEW_MS, Stale);
    var _ :- Need(now - generated <= maxAgeMs && now <= until, Stale);
    var _ :- Need(generated < until <= generated + MAX_VALIDITY_MS, Malformed);
    var _ :- Need(ValidDigest(s.producerBoot), Malformed);
    var _ :- Need(s.producerBoot == boot, Stale);
    Ok(generated)
  }

  function CheckSource(source: Option<Source>): Result<int> {
    var _ :- Need(source.Some?, Malformed);
    var o := source.value;
    var _ :- Need(o.kind == Text(SOURCE_KIND) && o.namespace == Text(CLAIM_PREFIX), Untrusted);
    var _ :- Need(
      o.clusterId.Text? && IsDecimal(o.clusterId.s) && o.memberId.Text? && IsDecimal(o.memberId.s), Malformed);
    var revision :- StrictInt(o.revision, 1, MAX_INT64);
    var _ :- StrictInt(o.raftTerm, 1, MAX_INT64);
    Ok(revision)
  }

  predicate EachValid(entries: seq<Entry>, revision: int) {
    forall i :: 0 <= i < |entries| ==> ValidateEntry(entries[i], revision).Ok?
  }

  /** The list form: keys strictly increasing, leases pairwise distinct. */
  predicate InOrder(entries: seq<Entry>) {
    Keyed(entries) && StrictlySorted(entries) && DistinctLeases(entries)
  }

  function ClaimsOf(entries: seq<Entry>, revision: int): (claims: seq<Claim>)
    requires EachValid(entries, revision)
    ensures |claims| == |entries|
    ensures forall i :: 0 <= i < |entries| ==> claims[i] == ValidateEntry(entries[i], revision).value
  {
    seq(|entries|, i requires 0 <= i < |entries| => ValidateEntry(entries[i], revision).value)
  }

  function AdmitClaims(claims: Option<seq<Entry>>, revision: int): Result<seq<Claim>> {
    if claims.Some? && |claims.value| <= MAX_CLAIMS && EachValid(claims.value, revision) && InOrder(claims.value)
    then Ok(ClaimsOf(claims.value, revision)) else Err(Malformed)
  }

  function SnapshotVerdict(s: Snapshot, now: int, boot: Scalar, maxAgeMs: int): Result<Evidence> {
    var generated :- CheckTimes(s, now, boot, maxAgeMs);
    var revision :- CheckSource(s.source);
    var claims :- AdmitClaims(s.claims, revision);
    Ok(Evidence(revision, claims, generated))
  }

  /** Comparing a new key with the last one, and its lease with those seen, decides the order of the longer list. */
  lemma OrderGrows(entries: seq<Entry>, e: Entry)
    requires InOrder(entries) && e.Entry? && e.key.Text?
    ensures InOrder(entries + [e]) <==>
      (entries == [] || Less(entries[|entries| - 1].key.s, e.key.s)) && e.leaseId !in LeasesOf(entries)
  {
    var longer := entries + [e];
    assert longer[|entries|] == e && forall x <- longer :: x in entries || x == e;
    if entries != [] && Less(entries[|entries| - 1].key.s, e.key.s) {
      forall k | 0 <= k < |entries| - 1 ensures Less(entries[k].key.s, e.key.s) {
        LessIsTransitive(entries[k].key.s, entries[|entries| - 1].key.s, e.key.s);
      }
    }
    if InOrder(longer) {
      forall x | x in entries ensures x.leaseId != e.leaseId {
        var k :| 0 <= k < |entries| && entries[k] == x;
        assert longer[k] == x;
      }
      assert entries != [] ==> longer[|entries| - 1] == entries[|entries| - 1];
    }
  }

  /** The test the loop makes on a new entry. */
  predicate Refuses(keys: set<Scalar>, leases: set<Scalar>, previous: Option<string>, e: Entry)
    requires e.Entry? && e.key.Text?
  {
    e.key in keys || e.leaseId in leases
    || (previous.Some? && (e.key.s == previous.value || Less(e.key.s, previous.value)))
  }

  function LastKey(entries: seq<Entry>): Option<string>
    requires Keyed(entries)
  {
    if entries == [] then None else Some(entries[|entries| - 1].key.s)
  }

  /** The test refuses exactly the entries that break the order; its seen-key part adds nothing to the rest. */
  lemma TestDecidesOrder(entries: seq<Entry>, e: Entry)
    requires InOrder(entries) && e.Entry? && e.key.Text?
    ensures Refuses(KeysOf(entries), LeasesOf(entries), LastKey(entries), e) <==> !InOrder(entries + [e])
    ensures Refuses({}, LeasesOf(entries), LastKey(entries), e)
       <==> Refuses(KeysOf(entries), LeasesOf(entries), LastKey(entries), e)
    ensures Keyed(entries + [e])
    ensures KeysOf(entries + [e]) == KeysOf(entries) + {e.key}
    ensures LeasesOf(entries + [e]) == LeasesOf(entries) + {e.leaseId}
  {
    OrderGrows(entries, e);
    var longer := entries + [e];
    assert longer[|entries|] == e;
    if entries != [] {
      LessIsTotal(e.key.s, entries[|entries| - 1].key.s);
    }
    if e.key in KeysOf(entries) {
      var x :| x in entries && x.key == e.key;
      var k :| 0 <= k < |entries| && entries[k] == x;
      assert !Less(entries[|entries| - 1].key.s, e.key.s);
    }
  }

  lemma PrefixInOrder(entries: seq<Entry>, n: nat)
    requires n <= |entries| && InOrder(entries)
    ensures InOrder(entries[..n])
  {
    forall x | x in entries[..n] ensures x in entries { }
  }

  lemma ValidIsKeyed(e: Entry, revision: int)
    requires ValidateEntry(e, revision).Ok?
    ensures e.Entry? && e.key.Text?
  {}

  /** The first `n` entries have passed every test of the loop. */
  predicate Passed(entries: seq<Entry>, revision: int, claims: seq<Claim>) {
    InOrder(entries) && EachValid(entries, revision) && claims == ClaimsOf(entries, revision)
  }

  lemma OneMorePasses(entries: seq<Entry>, i: nat, revision: int, claims: seq<Claim>)
    requires i < |entries| && Passed(entries[..i], revision, claims)
    ensures var valid := ValidateEntry(entries[i], revision);
      && (valid.Err? ==> !EachValid(entries, revision))
      && (valid.Ok? ==>
        && entries[i].Entry? && entries[i].key.Text?
        && if Refuses(KeysOf(entries[..i]), LeasesOf(entries[..i]), LastKey(entries[..i]), entries[i])
           then !InOrder(entries)
           else
             && Passed(entries[..i + 1], revision, claims + [valid.value])
             && KeysOf(entries[..i + 1]) == KeysOf(entries[..i]) + {entries[i].key}
             && LeasesOf(entries[..i + 1]) == LeasesOf(entries[..i]) + {entries[i].leaseId}
             && LastKey(entries[..i + 1]) == Some(entries[i].key.s))
  {
    hide ValidateEntry, Refuses, StrictlySorted, DistinctLeases;
    var valid := ValidateEntry(entries[i], revision);
    PrefixGrows(entries, i);
    if valid.Ok? {
      ValidIsKeyed(entries[i], revision);
      TestDecidesOrder(entries[..i], entries[i]);
      if InOrder(entries) {
        PrefixInOrder(entries, i + 1);
      }
    }
  }

  /** The guard's loop over the entries, in the order they are stored. */
  method ParseClaims(entries: seq<Entry>, revision: int) returns (out: Result<seq<Claim>>)
    ensures out == AdmitClaims(Some(entries), revision)
  {
    if |entries| > MAX_CLAIMS {
      return Err(Malformed);
    }
    var claims: seq<Claim> := [];
    var keys: set<Scalar> := {};
    var leases: set<Scalar> := {};
    var previous: Option<string> := None;
    for i := 0 to |entries|
      invariant Passed(entries[..i], revision, claims)
      invariant keys == KeysOf(entries[..i]) && leases == LeasesOf(entries[..i])
      invariant previous == LastKey(entries[..i])
    {
      OneMorePasses(entries, i, revision, claims);
      var valid := ValidateEntry(entries[i], revision);
      if valid.Err? || Refuses(keys, leases, previous, entries[i]) {
        return Err(Malformed);
      }
      keys := keys + {entries[i].key};
      leases := leases + {entries[i].leaseId};
      previous := Some(entries[i].key.s);
      claims := claims + [valid.value];
    }
    WholePrefix(entries);
    return Ok(claims);
  }

  method ParseSnapshot(s: Snapshot, now: int, boot: Scalar, maxAgeMs: int) returns (out: Result<Evidence>)
    ensures out == SnapshotVerdict(s, now, boot, maxAgeMs)
  {
    var generated :- CheckTimes(s, now, boot, maxAgeMs);
    var revision :- CheckSource(s.source);
    if s.claims.None? {
      return Err(Malformed);
    }
    var claims :- ParseClaims(s.claims.value, revision);
    return Ok(Evidence(revision, claims, generated));
  }

  function VerifyCommitment(c: Commitment, snapshotTag: Scalar, boot: Scalar, revision: int, generated: int): Result<()>
  {
    var _ :- Need(c.schema == Text(COMMITMENT_SCHEMA), Malformed);
    Need(c.snapshotTag == snapshotTag && c.producerBoot == boot
         && EqualsInt(c.revision, revision) && EqualsInt(c.generatedAt, generated), Replay)
  }

  /** A claim is harmless to a host if it is that host's own or shares none of the three public parts. */
  predicate Compatible(host: Claim, claim: Claim) {
    claim == host
    || (claim.node != host.node && claim.address != host.address && claim.fingerprint != host.fingerprint)
  }

  predicate NoCollision(host: Claim, claims: seq<Claim>) {
    forall i :: 0 <= i < |claims| ==> Compatible(host, claims[i])
  }

  method Evaluate(host: Claim, claims: seq<Claim>) returns (out: Result<()>)
    ensures out == Need(NoCollision(host, claims), Collision)
  {
    for i := 0 to |claims|
      invariant NoCollision(host, claims[..i])
    {
      var claim := claims[i];
      var samePublic := claim.node == host.node && claim.address == host.address
        && claim.fingerprint == host.fingerprint;
      var sameClaimant := samePublic && claim.machine == host.machine && claim.boot == host.boot;
      if sameClaimant {
        assert claims[..i + 1] == claims[..i] + [claim];
        continue;
      }
      if claim.node == host.node || claim.address == host.address || claim.fingerprint == host.fingerprint {
        return Err(Collision);
      }
      assert claims[..i + 1] == claims[..i] + [claim];
    }
    assert claims[..|claims|] == claims;
    return Ok(());
  }

  /** The whole decision, on the two files as they were read and the clock at the end of the reads. */
  function Decide(key: Secret, boot: Scalar, host: Claim, snapshotFile: Option<File>, commitmentFile: Option<File>,
                  now: int, maxAgeMs: int): Result<Evidence> {
    var _ :- Need(snapshotFile.Some?, Untrusted);
    var (snapshotBody, tag) :- VerifyEnvelope(snapshotFile.value, SNAPSHOT_SCHEMA, SnapshotDomain, key);
    var _ :- Need(commitmentFile.Some?, Untrusted);
    var (commitmentBody, _) :- VerifyEnvelope(commitmentFile.value, COMMITMENT_SCHEMA, CommitmentDomain, key);
    var _ :- Need(snapshotBody.SnapshotBody?, Malformed);
    var evidence :- SnapshotVerdict(snapshotBody.snapshot, now, boot, maxAgeMs);
    var _ :- Need(commitmentBody.CommitmentBody?, Malformed);
    var _ :- VerifyCommitment(commitmentBody.commitment, tag, boot, evidence.revision, evidence.generated);
    var _ :- Need(NoCollision(host, evidence.claims), Collision);
    Ok(evidence)
  }
}
