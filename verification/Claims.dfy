/** Results, decoded evidence and the claim contract that the producer and the guard both enforce. */
module Claims {
  import opened Wrappers
  import opened Text

  datatype ExitCode = Collision | Malformed | Stale | Untrusted | Replay

  /** A value, or the exit code of the exception the source raises. */
  datatype Result<+T> = Ok(value: T) | Err(code: ExitCode) {
    predicate IsFailure() { Err? }
    function PropagateFailure<U>(): Result<U> requires Err? { Err(code) }
    function Extract(): T requires Ok? { value }
  }

  function Need(condition: bool, code: ExitCode): Result<()> {
    if condition then Ok(()) else Err(code)
  }

  const MAX_CLAIMS := 12
  const MAX_INT64 := 0x7fff_ffff_ffff_ffff
  const MAX_UINT64 := 0xffff_ffff_ffff_ffff
  const MAX_CLAIM_VALUE_BYTES := 1024
  const CLAIM_PREFIX := "/mesh/overlay-identity-claims/v1/"
  const CLAIM_KEY_BYTES := |CLAIM_PREFIX| + 3 * 64 + 2
  const SNAPSHOT_SCHEMA := "mcnf.overlay-identity-claim-snapshot.v2"
  const COMMITMENT_SCHEMA := "mcnf.overlay-identity-claim-snapshot-commitment.v1"
  const SOURCE_KIND := "etcd-linearizable-lease-range"
  const AUTH_ALGORITHM := "hmac-sha256"
  const AUTH_KEY_ID := "local-overlay-claim-snapshot-hmac-v1"

  type Secret = string
  type BootId = nat

  datatype Domain = SnapshotDomain | CommitmentDomain | BootDomain

  /** A keyed digest as a term: two are equal only if domain, key and body are. */
  datatype Mac = Mac(domain: Domain, key: Secret, body: Body)

  /** What a digest covers; `OtherBody` stands for every object of another shape. */
  datatype Body =
    | SnapshotBody(snapshot: Snapshot)
    | CommitmentBody(commitment: Commitment)
    | BootBody(boot: BootId)
    | OtherBody(shape: int)

  /** One decoded JSON value. `MacText` is the text of a keyed digest, `Compound` any list or object. */
  datatype Scalar =
    | Null
    | Bool(b: bool)
    | Int(i: int)
    | Float(r: real)
    | Text(s: string)
    | MacText(mac: Mac)
    | Compound

  datatype ClaimRecord = ClaimRecord(
    schemaVersion: Scalar, nodeId: Scalar, name: Scalar, address: Scalar,
    fingerprint: Scalar, machine: Scalar, boot: Scalar)

  /** One element of the snapshot's claim list; `BadEntry` has the wrong fields. */
  datatype Entry = BadEntry | Entry(key: Scalar, leaseId: Scalar, modRevision: Scalar, claim: ClaimRecord)

  datatype Source = Source(
    kind: Scalar, namespace: Scalar, clusterId: Scalar, memberId: Scalar, revision: Scalar, raftTerm: Scalar)

  datatype Snapshot = Snapshot(
    schema: Scalar, generatedAt: Scalar, validUntil: Scalar, producerBoot: Scalar,
    source: Option<Source>, claims: Option<seq<Entry>>)

  datatype Commitment = Commitment(
    schema: Scalar, snapshotTag: Scalar, producerBoot: Scalar, revision: Scalar, generatedAt: Scalar)

  /** A file as the guard decodes it. */
  datatype File =
    | Unparsable
    | Envelope(schema: Scalar, body: Body, algorithm: Scalar, keyId: Scalar, tag: Scalar)

  /** Python's `value == n`: `true` equals 1 and so does 1.0. */
  predicate EqualsInt(value: Scalar, n: int) {
    match value
    case Int(i) => i == n
    case Bool(b) => n == if b then 1 else 0
    case Float(r) => r == n as real
    case _ => false
  }

  /** A version is 1 if it is the number, `true` or `1.0`, and these are its texts. */
  lemma VersionsOfOne(value: Scalar)
    ensures EqualsInt(value, 1) <==> value in {Int(1), Bool(true), Float(1.0)}
    ensures PrintVersion(Int(1)) == "1" && PrintVersion(Bool(true)) == "true" && PrintVersion(Float(1.0)) == "1.0"
  {}

  predicate IsHexDigit(c: char) {
    IsDigit(c) || 'a' <= c <= 'f'
  }

  predicate IsDigestText(s: string) {
    && |s| == 64
    && (forall i :: 0 <= i < |s| ==> IsHexDigit(s[i]))
    && exists i :: 0 <= i < |s| && s[i] != '0'
  }

  predicate ValidDigest(value: Scalar) {
    value.MacText? || (value.Text? && IsDigestText(value.s))
  }

  predicate IsNodeChar(c: char) {
    IsDigit(c) || 'a' <= c <= 'z' || 'A' <= c <= 'Z' || c == '.' || c == '_' || c == '-'
  }

  /** `peer:` followed by an alphanumeric and at most 127 more name characters. */
  predicate IsNodeId(s: string) {
    && 6 <= |s| <= 133
    && s[..5] == "peer:"
    && (forall i :: 5 <= i < |s| ==> IsNodeChar(s[i]))
    && s[5] !in "._-"
  }

  predicate IsOctet(s: string) {
    1 <= |s| <= 3 && AllDigits(s) && (|s| > 1 ==> s[0] != '0') && ValueOf(s) < 256
  }

  /** A canonical IPv4 text inside 10.42.0.0/17. */
  predicate IsOverlayAddress(s: string) {
    var parts := Split(s, '.');
    && |parts| == 4
    && (forall i :: 0 <= i < 4 ==> IsOctet(parts[i]))
    && ValueOf(parts[0]) == 10 && ValueOf(parts[1]) == 42 && ValueOf(parts[2]) < 128
  }

  /** The identity a record claims, once admitted. */
  datatype Claim = Claim(node: string, address: string, fingerprint: string, machine: string, boot: string)

  function ClaimKey(fingerprint: string, machine: string, boot: string): string {
    CLAIM_PREFIX + Join([fingerprint, machine, boot], '/')
  }

  /** The three digests named by a key of the exact shape. */
  function KeyComponents(key: string): Result<seq<string>> {
    var _ :- Need(|key| == CLAIM_KEY_BYTES && CLAIM_PREFIX <= key, Malformed);
    var components := Split(key[|CLAIM_PREFIX|..], '/');
    var _ :- Need(|components| == 3 && forall i :: 0 <= i < |components| ==> IsDigestText(components[i]), Malformed);
    Ok(components)
  }

  /** The checks on a claim value that both programs make, in their common order. */
  function AdmitRecord(components: seq<string>, c: ClaimRecord): Result<Claim>
    requires |components| == 3
  {
    var _ :- Need(EqualsInt(c.schemaVersion, 1), Malformed);
    var _ :- Need(c.nodeId.Text? && IsNodeId(c.nodeId.s) && c.name == c.nodeId, Malformed);
    var _ :- Need(c.address.Text? && IsOverlayAddress(c.address.s), Malformed);
    var _ :- Need(ValidDigest(c.fingerprint) && ValidDigest(c.machine) && ValidDigest(c.boot), Malformed);
    var _ :- Need(c.machine != c.boot, Malformed);
    var _ :- Need([Text(components[0]), Text(components[1]), Text(components[2])] ==
                  [c.fingerprint, c.machine, c.boot], Malformed);
    Ok(Claim(c.nodeId.s, c.address.s, c.fingerprint.s, c.machine.s, c.boot.s))
  }

  predicate Keyed(entries: seq<Entry>) {
    forall e <- entries :: e.Entry? && e.key.Text?
  }

  /** Strictly increasing keys: the form the producer writes and the guard demands. */
  predicate StrictlySorted(entries: seq<Entry>)
    requires Keyed(entries)
  {
    forall i, j :: 0 <= i < j < |entries| ==> Less(entries[i].key.s, entries[j].key.s)
  }

  predicate DistinctLeases(entries: seq<Entry>)
    requires Keyed(entries)
  {
    forall i, j :: 0 <= i < j < |entries| ==> entries[i].leaseId != entries[j].leaseId
  }

  function KeysOf(entries: seq<Entry>): set<Scalar>
    requires Keyed(entries)
  {
    set e | e in entries :: e.key
  }

  function LeasesOf(entries: seq<Entry>): set<Scalar>
    requires Keyed(entries)
  {
    set e | e in entries :: e.leaseId
  }

  function PrintVersion(value: Scalar): string
    requires EqualsInt(value, 1)
  {
    match value
    case Bool(_) => "true"
    case Float(_) => "1.0"
    case _ => "1"
  }

  /** `canonical_json` of an admitted claim: sorted keys, no spaces; its texts need no escape. */
  function PrintClaim(version: Scalar, c: Claim): string
    requires EqualsInt(version, 1)
  {
    "{\"boot_claimant_digest\":\"" + c.boot +
    "\",\"certificate_fingerprint\":\"" + c.fingerprint +
    "\",\"machine_claimant_digest\":\"" + c.machine +
    "\",\"nebula_address\":\"" + c.address +
    "\",\"nebula_name\":\"" + c.node +
    "\",\"nebula_node_id\":\"" + c.node +
    "\",\"schema_version\":" + PrintVersion(version) + "}"
  }

  lemma AddressLength(s: string)
    requires IsOverlayAddress(s)
    ensures |s| <= 15
  {
    var parts := Split(s, '.');
    JoinAfterSplit(s, '.');
    assert parts[1..][1..] == parts[2..] && parts[2..][1..] == [parts[3]];
    assert Join(parts[2..], '.') == parts[2] + ['.'] + parts[3];
    assert Join(parts[1..], '.') == parts[1] + ['.'] + Join(parts[2..], '.');
  }

  /** An admitted claim never reaches the guard's value bound, so that check alone cannot refuse it. */
  lemma AdmittedClaimIsShort(components: seq<string>, c: ClaimRecord)
    requires |components| == 3 && AdmitRecord(components, c).Ok?
    requires forall i :: 0 <= i < 3 ==> IsDigestText(components[i])
    ensures |PrintClaim(c.schemaVersion, AdmitRecord(components, c).value)| <= 637 < MAX_CLAIM_VALUE_BYTES
  {
    AddressLength(c.address.s);
  }

  /** A key that names three digests is exactly the claim key of those digests, so the triple determines it. */
  lemma KeyIsItsTriple(key: string)
    requires KeyComponents(key).Ok?
    ensures var t := KeyComponents(key).value; |t| == 3 && key == ClaimKey(t[0], t[1], t[2])
  {
    var body := key[|CLAIM_PREFIX|..];
    var t := Split(body, '/');
    JoinAfterSplit(body, '/');
    assert t == [t[0], t[1], t[2]];
    assert key == CLAIM_PREFIX + body;
  }

  /** The converse: the claim key of three digests has the exact shape and names them back. */
  lemma TripleHasItsKey(fingerprint: string, machine: string, boot: string)
    requires IsDigestText(fingerprint) && IsDigestText(machine) && IsDigestText(boot)
    ensures KeyComponents(ClaimKey(fingerprint, machine, boot)) == Ok([fingerprint, machine, boot])
  {
    var t := [fingerprint, machine, boot];
    forall i | 0 <= i < 3 ensures '/' !in t[i] {
      forall k | 0 <= k < |t[i]| ensures t[i][k] != '/' { assert IsHexDigit(t[i][k]); }
    }
    SplitAfterJoin(t, '/');
    var key := ClaimKey(fingerprint, machine, boot);
    assert key[|CLAIM_PREFIX|..] == Join(t, '/');
    assert t[1..][1..] == [boot] && t[1..] == [machine, boot];
    assert Join(t[1..], '/') == machine + ['/'] + boot;
    assert |Join(t, '/')| == 194;
  }
}
