/** The producer: admits one lease range, orders it, and seals a snapshot and its commitment. */
module Materializer {
  import opened Wrappers
  import opened Text
  import opened Claims

  const MAX_VALIDITY_SECONDS := 30

  /** One etcd key with its metadata; `None` is a key or value whose decoding failed. */
  datatype KeyValue = KeyValue(
    createRevision: Scalar, modRevision: Scalar, version: Scalar, lease: Scalar,
    key: Option<string>, value: Option<ClaimRecord>)

  datatype Header = Header(clusterId: Scalar, memberId: Scalar, revision: Scalar, raftTerm: Scalar)

  datatype Range = Range(header: Header, count: Scalar, kvs: seq<KeyValue>)

  /** A positive integer given as a number or as an admitted numeral. */
  function StrictUint(value: Scalar, maximum: int): Result<int> {
    var number :- match value
      case Int(i) => Ok(i)
      case Text(s) => if IsDecimal(s) then Ok(ValueOf(s)) else Err(Malformed)
      case _ => Err(Malformed);
    var _ :- Need(1 <= number <= maximum, Malformed);
    Ok(number)
  }

  function StrictCount(value: Scalar): Result<int> {
    var number :- match value
      case Int(i) => Ok(i)
      case Text(s) =>
        if s != "" && AllDigits(s) && (s == "0" || s[0] != '0') then Ok(ValueOf(s)) else Err(Malformed)
      case _ => Err(Malformed);
    var _ :- Need(0 <= number <= MAX_CLAIMS, Malformed);
    Ok(number)
  }

  function AdmitHeader(h: Header): Result<Source> {
    var cluster :- StrictUint(h.clusterId, MAX_UINT64);
    var member :- StrictUint(h.memberId, MAX_UINT64);
    var revision :- StrictUint(h.revision, MAX_INT64);
    var term :- StrictUint(h.raftTerm, MAX_INT64);
    Ok(Source(Text(SOURCE_KIND), Text(CLAIM_PREFIX), Text(Decimal(cluster)), Text(Decimal(member)),
              Int(revision), Int(term)))
  }

  function Decoded<T>(value: Option<T>): Result<T> {
    if value.Some? then Ok(value.value) else Err(Malformed)
  }

  function AdmitKeyValue(kv: KeyValue, revision: int): Result<Entry> {
    var created :- StrictUint(kv.createRevision, revision);
    var modified :- StrictUint(kv.modRevision, revision);
    var version :- StrictUint(kv.version, MAX_INT64);
    var _ :- Need(created <= modified, Malformed);
    var lease :- StrictUint(kv.lease, MAX_INT64);
    var key :- Decoded(kv.key);
    var record :- Decoded(kv.value);
    var components :- KeyComponents(key);
    var _ :- AdmitRecord(components, record);
    Ok(Entry(Text(key), Text(Decimal(lease)), Int(modified), record))
  }

  predicate DistinctEntries(entries: seq<Entry>)
    requires forall e <- entries :: e.Entry?
  {
    forall i, j :: 0 <= i < j < |entries| ==>
      entries[i].key != entries[j].key && entries[i].leaseId != entries[j].leaseId
  }

  predicate EachAdmitted(kvs: seq<KeyValue>, revision: int) {
    forall i :: 0 <= i < |kvs| ==> AdmitKeyValue(kvs[i], revision).Ok?
  }

  function EntriesOf(kvs: seq<KeyValue>, revision: int): (entries: seq<Entry>)
    requires EachAdmitted(kvs, revision)
    ensures |entries| == |kvs|
    ensures forall i :: 0 <= i < |kvs| ==> entries[i] == AdmitKeyValue(kvs[i], revision).value
  {
    seq(|kvs|, i requires 0 <= i < |kvs| => AdmitKeyValue(kvs[i], revision).value)
  }

  predicate ListAdmissible(kvs: seq<KeyValue>, revision: int) {
    EachAdmitted(kvs, revision) && DistinctEntries(EntriesOf(kvs, revision))
  }

  /** What the producer demands of one linearizable range. */
  predicate RangeAdmissible(r: Range) {
    && AdmitHeader(r.header).Ok?
    && |r.kvs| <= MAX_CLAIMS
    && StrictCount(r.count) == Ok(|r.kvs|)
    && ListAdmissible(r.kvs, AdmitHeader(r.header).value.revision.i)
  }

  // ---------- ordering by key

  function InsertByKey(e: Entry, sorted: seq<Entry>): (r: seq<Entry>)
    requires Keyed([e]) && Keyed(sorted)
    ensures multiset(r) == multiset(sorted) + multiset{e} && Keyed(r)
  {
    assert e in [e];
    if sorted == [] then [e]
    else
      assert sorted == [sorted[0]] + sorted[1..];
      if Less(sorted[0].key.s, e.key.s) then
        var rest := InsertByKey(e, sorted[1..]);
        assert multiset([sorted[0]] + rest) == multiset{sorted[0]} + multiset(rest);
        [sorted[0]] + rest
      else
        assert multiset([e] + sorted) == multiset{e} + multiset(sorted);
        [e] + sorted
  }

  function SortByKey(entries: seq<Entry>): (r: seq<Entry>)
    requires Keyed(entries)
    ensures multiset(r) == multiset(entries) && Keyed(r)
  {
    if entries == [] then []
    else
      assert entries == [entries[0]] + entries[1..];
      assert entries[0] in [entries[0]];
      InsertByKey(entries[0], SortByKey(entries[1..]))
  }

  predicate DistinctKeys(entries: seq<Entry>)
    requires Keyed(entries)
  {
    forall i, j :: 0 <= i < j < |entries| ==> entries[i].key != entries[j].key
  }

  lemma {:induction false} InsertKeepsSorted(e: Entry, sorted: seq<Entry>)
    requires Keyed([e]) && Keyed(sorted) && StrictlySorted(sorted)
    requires e in [e] && forall s <- sorted :: s.key != e.key
    ensures StrictlySorted(InsertByKey(e, sorted))
  {
    if sorted == [] {
    } else {
      LessIsTotal(sorted[0].key.s, e.key.s);
      var rest := sorted[1..];
      if Less(sorted[0].key.s, e.key.s) {
        InsertKeepsSorted(e, rest);
        var inserted := InsertByKey(e, rest);
        forall k | 0 <= k < |inserted| ensures Less(sorted[0].key.s, inserted[k].key.s) {
          assert inserted[k] in multiset(rest) + multiset{e};
        }
      } else {
        forall k | 0 <= k < |sorted| ensures Less(e.key.s, sorted[k].key.s) {
          if k > 0 {
            LessIsTransitive(e.key.s, sorted[0].key.s, sorted[k].key.s);
          }
        }
      }
    }
  }

  lemma {:induction false} SortSorts(entries: seq<Entry>)
    requires Keyed(entries) && DistinctKeys(entries)
    ensures StrictlySorted(SortByKey(entries))
  {
    if entries == [] {
    } else {
      var rest := entries[1..];
      SortSorts(rest);
      forall s | s in SortByKey(rest) ensures s.key != entries[0].key {
        assert s in multiset(rest);
        var k :| 0 <= k < |rest| && rest[k] == s;
        assert entries[k + 1] == s;
      }
      assert entries[0] in [entries[0]];
      InsertKeepsSorted(entries[0], SortByKey(rest));
    }
  }

  lemma SameLeastElement(a: seq<Entry>, b: seq<Entry>)
    requires Keyed(a) && Keyed(b) && StrictlySorted(a) && StrictlySorted(b)
    requires a != [] && b != [] && a[0] in b && b[0] in a
    ensures a[0] == b[0]
  {
    var i :| 0 <= i < |b| && b[i] == a[0];
    var j :| 0 <= j < |a| && a[j] == b[0];
    LessIsTotal(a[0].key.s, b[0].key.s);
  }

  /** Two strictly sorted lists with the same elements are the same list, so the sort has one answer. */
  lemma {:induction false} SortedListIsUnique(a: seq<Entry>, b: seq<Entry>)
    requires Keyed(a) && Keyed(b) && StrictlySorted(a) && StrictlySorted(b)
    requires |a| == |b| && forall e :: e in a <==> e in b
    ensures a == b
  {
    if a == [] {
    } else {
      assert a[0] in b && b[0] in a;
      SameLeastElement(a, b);
      var x, y := a[1..], b[1..];
      assert a == [a[0]] + x && b == [a[0]] + y;
      forall k | 0 <= k < |x| ensures x[k] != a[0] { LessIsTotal(a[0].key.s, a[k + 1].key.s); }
      forall k | 0 <= k < |y| ensures y[k] != a[0] { LessIsTotal(b[0].key.s, b[k + 1].key.s); }
      forall e ensures e in x <==> e in y { assert e in a <==> e in b; }
      SortedListIsUnique(x, y);
    }
  }

  // ---------- the range parser

  /** One more entry extends both seen-sets, and the list stays duplicate-free exactly if neither held it. */
  lemma SeenSetsGrow(entries: seq<Entry>, e: Entry)
    requires Keyed(entries) && e.Entry? && e.key.Text? && DistinctEntries(entries)
    ensures Keyed(entries + [e])
    ensures KeysOf(entries + [e]) == KeysOf(entries) + {e.key}
    ensures LeasesOf(entries + [e]) == LeasesOf(entries) + {e.leaseId}
    ensures DistinctEntries(entries + [e]) <==> e.key !in KeysOf(entries) && e.leaseId !in LeasesOf(entries)
  {
    var longer := entries + [e];
    assert longer[|entries|] == e;
    if e.key !in KeysOf(entries) && e.leaseId !in LeasesOf(entries) {
      forall i | 0 <= i < |entries| ensures longer[i].key != e.key && longer[i].leaseId != e.leaseId {
        assert longer[i] in entries;
      }
    } else if x :| x in entries && (x.key == e.key || x.leaseId == e.leaseId) {
      var i :| 0 <= i < |entries| && entries[i] == x;
      assert longer[i] == x;
    }
  }

  predicate SortedEntriesOf(r: Range, claims: seq<Entry>)
    requires RangeAdmissible(r)
  {
    && Keyed(claims) && StrictlySorted(claims)
    && multiset(claims) == multiset(EntriesOf(r.kvs, AdmitHeader(r.header).value.revision.i))
  }

  lemma OrderedEntries(claims: seq<Entry>)
    requires Keyed(claims) && DistinctEntries(claims)
    ensures var sorted := SortByKey(claims);
      Keyed(sorted) && StrictlySorted(sorted) && multiset(sorted) == multiset(claims)
  {
    SortSorts(claims);
  }

  /** The first keys have passed every test of the loop and gave these entries. */
  predicate Admitted(kvs: seq<KeyValue>, revision: int, claims: seq<Entry>) {
    ListAdmissible(kvs, revision) && claims == EntriesOf(kvs, revision) && Keyed(claims)
  }

  lemma PrefixAdmissible(kvs: seq<KeyValue>, n: nat, revision: int)
    requires n <= |kvs| && ListAdmissible(kvs, revision)
    ensures ListAdmissible(kvs[..n], revision)
  {
    var all, some := EntriesOf(kvs, revision), EntriesOf(kvs[..n], revision);
    assert forall i :: 0 <= i < n ==> some[i] == all[i];
  }

  lemma OneMoreAdmitted(kvs: seq<KeyValue>, i: nat, revision: int, claims: seq<Entry>)
    requires i < |kvs| && Admitted(kvs[..i], revision, claims)
    ensures var r := AdmitKeyValue(kvs[i], revision);
      && (r.Err? ==> !ListAdmissible(kvs, revision))
      && (r.Ok? ==>
        && r.value.Entry?
        && if r.value.key in KeysOf(claims) || r.value.leaseId in LeasesOf(claims)
           then !ListAdmissible(kvs, revision)
           else
             && Admitted(kvs[..i + 1], revision, claims + [r.value])
             && KeysOf(claims + [r.value]) == KeysOf(claims) + {r.value.key}
             && LeasesOf(claims + [r.value]) == LeasesOf(claims) + {r.value.leaseId})
  {
    var r := AdmitKeyValue(kvs[i], revision);
    PrefixGrows(kvs, i);
    if r.Ok? {
      SeenSetsGrow(claims, r.value);
      var longer := EntriesOf(kvs[..i + 1], revision);
      assert longer == claims + [r.value];
      if ListAdmissible(kvs, revision) {
        PrefixAdmissible(kvs, i + 1, revision);
      }
    }
  }

  /** The producer's loop: the entries in arrival order, unless one is malformed or repeats a key or lease. */
  method AdmitAll(kvs: seq<KeyValue>, revision: int) returns (out: Result<seq<Entry>>)
    ensures out == if ListAdmissible(kvs, revision) then Ok(EntriesOf(kvs, revision)) else Err(Malformed)
    ensures out.Ok? ==> Keyed(out.value)
  {
    var claims: seq<Entry> := [];
    var seenKeys: set<Scalar> := {};
    var seenLeases: set<Scalar> := {};
    for i := 0 to |kvs|
      invariant Admitted(kvs[..i], revision, claims)
      invariant seenKeys == KeysOf(claims) && seenLeases == LeasesOf(claims)
    {
      OneMoreAdmitted(kvs, i, revision, claims);
      var r := AdmitKeyValue(kvs[i], revision);
      if r.Err? || r.value.key in seenKeys || r.value.leaseId in seenLeases {
        return Err(Malformed);
      }
      seenKeys := seenKeys + {r.value.key};
      seenLeases := seenLeases + {r.value.leaseId};
      claims := claims + [r.value];
    }
    WholePrefix(kvs);
    return Ok(claims);
  }

  /** Accepts exactly the admissible ranges and returns their entries in strict key order. */
  method ParseRange(r: Range) returns (out: Result<(Source, seq<Entry>)>)
    ensures out.Ok? <==> RangeAdmissible(r)
    ensures out.Err? ==> out.code == Malformed
    ensures out.Ok? ==> AdmitHeader(r.header) == Ok(out.value.0) && SortedEntriesOf(r, out.value.1)
  {
    var source :- AdmitHeader(r.header);
    if |r.kvs| > MAX_CLAIMS {
      return Err(Malformed);
    }
    var count :- StrictCount(r.count);
    if count != |r.kvs| {
      return Err(Malformed);
    }
    var claims :- AdmitAll(r.kvs, source.revision.i);
    OrderedEntries(claims);
    return Ok((source, SortByKey(claims)));
  }

  // ---------- sealing

  function Seal(schema: string, domain: Domain, key: Secret, body: Body): File {
    Envelope(Text(schema), body, Text(AUTH_ALGORITHM), Text(AUTH_KEY_ID), MacText(Mac(domain, key, body)))
  }

  function BootAttestation(key: Secret, boot: BootId): Scalar {
    MacText(Mac(BootDomain, key, BootBody(boot)))
  }

  function MakeSnapshot(key: Secret, boot: BootId, source: Source, claims: seq<Entry>,
                        generated: int, validitySeconds: int): Snapshot {
    Snapshot(Text(SNAPSHOT_SCHEMA), Int(generated), Int(generated + 1000 * validitySeconds),
             BootAttestation(key, boot), Some(source), Some(claims))
  }

  function SnapshotTag(key: Secret, s: Snapshot): Scalar {
    MacText(Mac(SnapshotDomain, key, SnapshotBody(s)))
  }

  /** The commitment that `main` derives from the snapshot it has just built. */
  function MakeCommitment(key: Secret, s: Snapshot): Commitment
    requires s.source.Some?
  {
    Commitment(Text(COMMITMENT_SCHEMA), SnapshotTag(key, s), s.producerBoot, s.source.value.revision, s.generatedAt)
  }

  function SnapshotFile(key: Secret, s: Snapshot): File {
    Seal(SNAPSHOT_SCHEMA, SnapshotDomain, key, SnapshotBody(s))
  }

  function CommitmentFile(key: Secret, s: Snapshot): File
    requires s.source.Some?
  {
    Seal(COMMITMENT_SCHEMA, CommitmentDomain, key, CommitmentBody(MakeCommitment(key, s)))
  }
}
