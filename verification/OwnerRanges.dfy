/**
  Ranges of leased claims as the store prints them: which of them the producer admits, and whom the guard then lets run.
*/
module OwnerRanges {
  import opened Wrappers
  import opened Text
  import opened Bytes
  import opened Claims
  import opened Materializer
  import opened Guard
  import opened Agreement
  import opened ClaimPrint

  /** A claim under a lease; the four numbers are those the store keeps with a key. */
  datatype Leased = Leased(owner: Owner, created: nat, modified: nat, version: nat, lease: nat)

  datatype Store = Store(cluster: nat, member: nat, revision: nat, term: nat, claims: seq<Leased>)

  /** The store prints every number as a text. */
  function Numeral(n: nat): Scalar {
    Text(Decimal(n))
  }

  function KeyValueOf(l: Leased): KeyValue {
    KeyValue(Numeral(l.created), Numeral(l.modified), Numeral(l.version), Numeral(l.lease),
             Some(KeyOf(l.owner)), Some(RecordOf(l.owner)))
  }

  function EntryOf(l: Leased): Entry {
    Entry(Text(KeyOf(l.owner)), Numeral(l.lease), Int(l.modified), RecordOf(l.owner))
  }

  function RangeOf(s: Store): Range {
    Range(Header(Numeral(s.cluster), Numeral(s.member), Numeral(s.revision), Numeral(s.term)), Numeral(|s.claims|),
          seq(|s.claims|, i requires 0 <= i < |s.claims| => KeyValueOf(s.claims[i])))
  }

  function SourceOf(s: Store): Source {
    Source(Text(SOURCE_KIND), Text(CLAIM_PREFIX), Numeral(s.cluster), Numeral(s.member), Int(s.revision), Int(s.term))
  }

  /** The numbers of a key fit below the revision of the store. */
  predicate NumbersFit(l: Leased, revision: nat) {
    1 <= l.created <= l.modified <= revision && 1 <= l.version <= MAX_INT64 && 1 <= l.lease <= MAX_INT64
  }

  predicate HeaderFits(s: Store) {
    && 1 <= s.cluster <= MAX_UINT64 && 1 <= s.member <= MAX_UINT64
    && 1 <= s.revision <= MAX_INT64 && 1 <= s.term <= MAX_INT64
  }

  /** No two claims have the same three digests or the same lease. */
  predicate Distinct(claims: seq<Leased>) {
    forall i, j :: 0 <= i < j < |claims| ==>
      && (claims[i].owner.fingerprint, claims[i].owner.machine, claims[i].owner.boot)
         != (claims[j].owner.fingerprint, claims[j].owner.machine, claims[j].owner.boot)
      && claims[i].lease != claims[j].lease
  }

  lemma NumeralIsRead(n: nat, maximum: int)
    requires maximum <= MAX_UINT64
    ensures StrictUint(Numeral(n), maximum) == if 1 <= n <= maximum then Ok(n) else Err(Malformed)
  {
    hide Decimal;
    DecimalReadsBack(n);
    if 1 <= n <= maximum {
      DecimalIsAdmitted(n);
    }
  }

  lemma CountIsRead(n: nat)
    ensures StrictCount(Numeral(n)) == if n <= MAX_CLAIMS then Ok(n) else Err(Malformed)
  {
    DecimalReadsBack(n);
    NumeralIsCanonical(Decimal(n));
  }

  /** A key with a good owner is admitted exactly if its numbers fit. */
  lemma PrintedKeyIsAdmitted(l: Leased, revision: nat)
    requires GoodOwner(l.owner) && revision <= MAX_INT64
    ensures AdmitKeyValue(KeyValueOf(l), revision) ==
      if NumbersFit(l, revision) then Ok(EntryOf(l)) else Err(Malformed)
  {
    hide StrictUint, Decimal, KeyComponents, AdmitRecord, KeyOf, GoodOwner;
    NumeralIsRead(l.created, revision);
    NumeralIsRead(l.modified, revision);
    NumeralIsRead(l.version, MAX_INT64);
    NumeralIsRead(l.lease, MAX_INT64);
    OwnerIsAdmitted(l.owner, Int(1));
    assert RecordOf(l.owner).(schemaVersion := Int(1)) == RecordOf(l.owner);
  }

  /** Keys tell owners apart by their three digests. */
  lemma KeysTellApart(a: Owner, b: Owner)
    requires GoodOwner(a) && GoodOwner(b)
    ensures KeyOf(a) == KeyOf(b) <==> (a.fingerprint, a.machine, a.boot) == (b.fingerprint, b.machine, b.boot)
  {
    hide Hex, ClaimKey, AdmitRecord, KeyComponents;
    OwnerIsAdmitted(a, Int(1));
    OwnerIsAdmitted(b, Int(1));
    HexTellsApart(a.fingerprint, b.fingerprint);
    HexTellsApart(a.machine, b.machine);
    HexTellsApart(a.boot, b.boot);
    var s, t := [Hex(a.fingerprint), Hex(a.machine), Hex(a.boot)], [Hex(b.fingerprint), Hex(b.machine), Hex(b.boot)];
    assert s == t ==> s[0] == t[0] && s[1] == t[1] && s[2] == t[2];
  }

  lemma NumeralsTellApart(m: nat, n: nat)
    ensures Numeral(m) == Numeral(n) <==> m == n
  {
    DecimalReadsBack(m);
    DecimalReadsBack(n);
  }

  /** What has to hold of a store with good owners. */
  predicate Fits(s: Store) {
    && HeaderFits(s) && |s.claims| <= MAX_CLAIMS && Distinct(s.claims)
    && forall l <- s.claims :: NumbersFit(l, s.revision)
  }

  lemma PrintedHeaderIsAdmitted(s: Store)
    ensures AdmitHeader(RangeOf(s).header) == if HeaderFits(s) then Ok(SourceOf(s)) else Err(Malformed)
  {
    hide StrictUint, Decimal;
    NumeralIsRead(s.cluster, MAX_UINT64);
    NumeralIsRead(s.member, MAX_UINT64);
    NumeralIsRead(s.revision, MAX_INT64);
    NumeralIsRead(s.term, MAX_INT64);
  }

  /** The printed claims of good owners are admitted exactly if their numbers fit and none repeats another. */
  lemma PrintedListIsAdmitted(claims: seq<Leased>, kvs: seq<KeyValue>, revision: nat)
    requires (forall l <- claims :: GoodOwner(l.owner)) && revision <= MAX_INT64
    requires |kvs| == |claims| && forall i :: 0 <= i < |claims| ==> kvs[i] == KeyValueOf(claims[i])
    ensures ListAdmissible(kvs, revision) <==> Distinct(claims) && forall l <- claims :: NumbersFit(l, revision)
    ensures ListAdmissible(kvs, revision) ==>
      EachAdmitted(kvs, revision) && forall i :: 0 <= i < |claims| ==> EntriesOf(kvs, revision)[i] == EntryOf(claims[i])
  {
    hide AdmitKeyValue, GoodOwner, KeyOf, Numeral, NumbersFit;
    forall i | 0 <= i < |claims|
      ensures AdmitKeyValue(kvs[i], revision).Ok? <==> NumbersFit(claims[i], revision)
      ensures AdmitKeyValue(kvs[i], revision).Ok? ==> AdmitKeyValue(kvs[i], revision).value == EntryOf(claims[i])
    {
      PrintedKeyIsAdmitted(claims[i], revision);
    }
    assert (forall l <- claims :: NumbersFit(l, revision)) ==> EachAdmitted(kvs, revision);
    assert EachAdmitted(kvs, revision) ==> forall l <- claims :: NumbersFit(l, revision) by {
      if EachAdmitted(kvs, revision) {
        forall l | l in claims ensures NumbersFit(l, revision) {
          var i :| 0 <= i < |claims| && claims[i] == l;
          assert AdmitKeyValue(kvs[i], revision).Ok?;
        }
      }
    }
    forall i, j | 0 <= i < j < |claims|
      ensures KeyOf(claims[i].owner) == KeyOf(claims[j].owner) <==>
        (claims[i].owner.fingerprint, claims[i].owner.machine, claims[i].owner.boot)
        == (claims[j].owner.fingerprint, claims[j].owner.machine, claims[j].owner.boot)
      ensures Numeral(claims[i].lease) == Numeral(claims[j].lease) <==> claims[i].lease == claims[j].lease
    {
      KeysTellApart(claims[i].owner, claims[j].owner);
      NumeralsTellApart(claims[i].lease, claims[j].lease);
    }
  }

  /** A range printed from good owners is admitted exactly if the store fits, with the store's numbers as its source. */
  lemma PrintedRangeIsAdmitted(s: Store)
    requires forall l <- s.claims :: GoodOwner(l.owner)
    ensures RangeAdmissible(RangeOf(s)) <==> Fits(s)
    ensures Fits(s) ==>
      && AdmitHeader(RangeOf(s).header) == Ok(SourceOf(s)) && EachAdmitted(RangeOf(s).kvs, s.revision)
      && forall i :: 0 <= i < |s.claims| ==> EntriesOf(RangeOf(s).kvs, s.revision)[i] == EntryOf(s.claims[i])
  {
    hide AdmitHeader, StrictCount, ListAdmissible, GoodOwner, Numeral, NumbersFit, Distinct;
    PrintedHeaderIsAdmitted(s);
    CountIsRead(|s.claims|);
    if HeaderFits(s) {
      PrintedListIsAdmitted(s.claims, RangeOf(s).kvs, s.revision);
    }
  }

  // ---------- and what the guard says of it

  lemma EntryYieldsTheClaim(l: Leased, revision: nat)
    requires GoodOwner(l.owner) && NumbersFit(l, revision) && revision <= MAX_INT64
    ensures ValidateEntry(EntryOf(l), revision) == Ok(ClaimOf(l.owner))
  {
    hide AdmitRecord, KeyComponents, GoodOwner, KeyOf, ClaimOf, PrintClaim, IsDecimal, Decimal, AdmitKeyValue;
    PrintedKeyIsAdmitted(l, revision);
    ProducedEntryIsValid(KeyValueOf(l), revision);
    OwnerIsAdmitted(l.owner, Int(1));
    assert RecordOf(l.owner).(schemaVersion := Int(1)) == RecordOf(l.owner);
  }

  /** Two owners that share neither name nor address nor certificate. */
  predicate OwnersApart(a: Owner, b: Owner) {
    a.name != b.name && (a.third, a.fourth) != (b.third, b.fourth) && a.fingerprint != b.fingerprint
  }

  lemma AddressesTellApart(a: Owner, b: Owner)
    ensures AddressText(10, 42, a.third, a.fourth) == AddressText(10, 42, b.third, b.fourth)
       <==> (a.third, a.fourth) == (b.third, b.fourth)
  {
    hide Split, Decimal, AddressText;
    AddressSplits(10, 42, a.third, a.fourth);
    AddressSplits(10, 42, b.third, b.fourth);
    var p := Split(AddressText(10, 42, a.third, a.fourth), '.');
    var q := Split(AddressText(10, 42, b.third, b.fourth), '.');
    assert p == q ==> p[2] == q[2] && p[3] == q[3];
    DecimalReadsBack(a.third);
    DecimalReadsBack(b.third);
    DecimalReadsBack(a.fourth);
    DecimalReadsBack(b.fourth);
  }

  lemma ClaimsAreCompatible(a: Owner, b: Owner)
    requires (a.fingerprint, a.machine, a.boot) != (b.fingerprint, b.machine, b.boot)
    ensures Compatible(ClaimOf(a), ClaimOf(b)) <==> OwnersApart(a, b)
  {
    hide Hex, AddressText;
    AddressesTellApart(a, b);
    HexTellsApart(a.fingerprint, b.fingerprint);
    HexTellsApart(a.machine, b.machine);
    HexTellsApart(a.boot, b.boot);
    var p, q := "peer:" + a.name, "peer:" + b.name;
    assert p[5..] == a.name && q[5..] == b.name;
  }

  /** The entries, in any order, yield the owners' claims, each of them and no other. */
  lemma ReorderedClaimsAreTheOwners(leased: seq<Leased>, revision: nat, original: seq<Entry>, claims: seq<Entry>)
    requires (forall l <- leased :: GoodOwner(l.owner) && NumbersFit(l, revision)) && revision <= MAX_INT64
    requires |original| == |leased| && forall i :: 0 <= i < |leased| ==> original[i] == EntryOf(leased[i])
    requires multiset(claims) == multiset(original)
    ensures EachValid(claims, revision)
    ensures forall c :: c in ClaimsOf(claims, revision) <==> exists l :: l in leased && c == ClaimOf(l.owner)
  {
    hide GoodOwner, ValidateEntry, ClaimOf, NumbersFit, EntryOf;
    forall i | 0 <= i < |claims|
      ensures ValidateEntry(claims[i], revision).Ok?
      ensures exists l :: l in leased && ValidateEntry(claims[i], revision).value == ClaimOf(l.owner)
    {
      assert claims[i] in multiset(original);
      var p :| 0 <= p < |original| && original[p] == claims[i];
      assert leased[p] in leased;
      EntryYieldsTheClaim(leased[p], revision);
    }
    forall l | l in leased ensures ClaimOf(l.owner) in ClaimsOf(claims, revision) {
      var p :| 0 <= p < |leased| && leased[p] == l;
      assert original[p] in multiset(claims);
      var i :| 0 <= i < |claims| && claims[i] == original[p];
      EntryYieldsTheClaim(l, revision);
      assert ClaimsOf(claims, revision)[i] == ClaimOf(l.owner);
    }
  }

  lemma SortedClaimsAreTheOwners(s: Store, claims: seq<Entry>)
    requires (forall l <- s.claims :: GoodOwner(l.owner)) && Fits(s)
    requires RangeAdmissible(RangeOf(s)) && SortedEntriesOf(RangeOf(s), claims)
    ensures EachValid(claims, s.revision)
    ensures forall c :: c in ClaimsOf(claims, s.revision) <==> exists l :: l in s.claims && c == ClaimOf(l.owner)
  {
    hide RangeAdmissible, GoodOwner, AdmitHeader, EachValid, EachAdmitted, KeyValueOf, NumbersFit, EntryOf, Keyed;
    hide StrictlySorted, Distinct;
    PrintedRangeIsAdmitted(s);
    ReorderedClaimsAreTheOwners(s.claims, s.revision, EntriesOf(RangeOf(s).kvs, s.revision), claims);
  }

  /**
    The whole way: what the store prints is sealed by the producer, and while the pair is fresh the guard of each owner
    says safe exactly if no other owner shares its name, its address or its certificate.
  */
  lemma OwnersAreSafeExactlyIfApart(s: Store, claims: seq<Entry>, k: nat, key: Secret, boot: BootId, generated: int,
                                    validitySeconds: int, now: int, maxAgeMs: int)
    requires (forall l <- s.claims :: GoodOwner(l.owner)) && Fits(s) && k < |s.claims|
    requires RangeAdmissible(RangeOf(s)) && SortedEntriesOf(RangeOf(s), claims)
    requires 1 <= validitySeconds <= MAX_VALIDITY_SECONDS
    requires Fresh(boot, generated, validitySeconds, boot, now, maxAgeMs)
    ensures var sealed := MakeSnapshot(key, boot, SourceOf(s), claims, generated, validitySeconds);
      Decide(key, BootAttestation(key, boot), ClaimOf(s.claims[k].owner), Some(SnapshotFile(key, sealed)),
             Some(CommitmentFile(key, sealed)), now, maxAgeMs).Ok?
      <==> forall i :: 0 <= i < |s.claims| && i != k ==> OwnersApart(s.claims[k].owner, s.claims[i].owner)
  {
    hide RangeAdmissible, GoodOwner, AdmitHeader, ValidateEntry, ClaimOf, NumbersFit, OwnersApart, Compatible, Fresh;
    hide Decide, SortedEntriesOf, RangeOf, MakeSnapshot;
    var host := ClaimOf(s.claims[k].owner);
    PrintedHeaderIsAdmitted(s);
    assert FromRange(SourceOf(s), claims);
    ProducerGuardAgreement(SourceOf(s), claims, key, boot, generated, validitySeconds, boot, now, maxAgeMs, host);
    SortedClaimsAreTheOwners(s, claims);
    var found := ClaimsOf(claims, s.revision);
    forall i | 0 <= i < |s.claims| && i != k
      ensures Compatible(host, ClaimOf(s.claims[i].owner)) <==> OwnersApart(s.claims[k].owner, s.claims[i].owner)
    {
      ClaimsAreCompatible(s.claims[k].owner, s.claims[i].owner);
    }
    OwnIsCompatible(host);
    if NoCollision(host, found) {
      forall i | 0 <= i < |s.claims| && i != k ensures OwnersApart(s.claims[k].owner, s.claims[i].owner) {
        assert s.claims[i] in s.claims && ClaimOf(s.claims[i].owner) in found;
        var j :| 0 <= j < |found| && found[j] == ClaimOf(s.claims[i].owner);
        assert Compatible(host, found[j]);
      }
    }
    if forall i :: 0 <= i < |s.claims| && i != k ==> OwnersApart(s.claims[k].owner, s.claims[i].owner) {
      forall j | 0 <= j < |found| ensures Compatible(host, found[j]) {
        assert found[j] in found;
        var l :| l in s.claims && found[j] == ClaimOf(l.owner);
        var i :| 0 <= i < |s.claims| && s.claims[i] == l;
      }
    }
  }

  lemma OwnIsCompatible(host: Claim)
    ensures Compatible(host, host)
  {}
}
