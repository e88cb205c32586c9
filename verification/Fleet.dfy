/** What the guards of a whole fleet establish together from one accepted snapshot. */
module Fleet {
  import opened Text
  import opened Claims
  import opened Guard

  /** Two claims that share no public part. */
  predicate Apart(a: Claim, b: Claim) {
    a.node != b.node && a.address != b.address && a.fingerprint != b.fingerprint
  }

  predicate PairwiseApart(claims: seq<Claim>) {
    forall i, j :: 0 <= i < j < |claims| ==> Apart(claims[i], claims[j])
  }

  lemma ClaimNamesItsKey(e: Entry, revision: int)
    requires ValidateEntry(e, revision).Ok?
    ensures var c := ValidateEntry(e, revision).value; e.key.s == ClaimKey(c.fingerprint, c.machine, c.boot)
  {
    KeyIsItsTriple(e.key.s);
  }

  /** Distinct keys are distinct claimants: no two accepted claims have the same digest triple. */
  lemma AcceptedClaimantsAreDistinct(entries: seq<Entry>, revision: int, i: nat, j: nat)
    requires EachValid(entries, revision) && InOrder(entries)
    requires i < |entries| && j < |entries| && i != j
    ensures var a, b := ClaimsOf(entries, revision)[i], ClaimsOf(entries, revision)[j];
      (a.fingerprint, a.machine, a.boot) != (b.fingerprint, b.machine, b.boot)
  {
    ClaimNamesItsKey(entries[i], revision);
    ClaimNamesItsKey(entries[j], revision);
    LessIsTotal(entries[i].key.s, entries[j].key.s);
  }

  /** A host that owns the k-th claim is declared safe exactly if every other claim is apart from its own. */
  lemma SafeMeansApartFromOthers(entries: seq<Entry>, revision: int, k: nat)
    requires EachValid(entries, revision) && InOrder(entries) && k < |entries|
    ensures var claims := ClaimsOf(entries, revision);
      NoCollision(claims[k], claims) <==> forall i :: 0 <= i < |claims| && i != k ==> Apart(claims[i], claims[k])
  {
    var claims := ClaimsOf(entries, revision);
    forall i | 0 <= i < |claims| && i != k
      ensures Compatible(claims[k], claims[i]) <==> Apart(claims[i], claims[k])
    {
      AcceptedClaimantsAreDistinct(entries, revision, i, k);
    }
  }

  /** All owners are safe exactly if the accepted claims are pairwise apart in node, address and fingerprint. */
  lemma FleetUniqueness(entries: seq<Entry>, revision: int)
    requires EachValid(entries, revision) && InOrder(entries)
    ensures var claims := ClaimsOf(entries, revision);
      (forall k :: 0 <= k < |claims| ==> NoCollision(claims[k], claims)) <==> PairwiseApart(claims)
  {
    var claims := ClaimsOf(entries, revision);
    forall k | 0 <= k < |claims|
      ensures NoCollision(claims[k], claims) <==>
        forall i :: 0 <= i < |claims| && i != k ==> Apart(claims[i], claims[k])
    {
      SafeMeansApartFromOthers(entries, revision, k);
    }
    if PairwiseApart(claims) {
      forall k, i | 0 <= k < |claims| && 0 <= i < |claims| && i != k ensures Apart(claims[i], claims[k]) {
        assert i < k ==> Apart(claims[i], claims[k]);
        assert k < i ==> Apart(claims[k], claims[i]);
      }
    }
  }

  // ---------- hosts and their raw identifiers

  datatype Host = Host(node: string, address: string, fingerprint: string, machineId: string, bootId: string)

  datatype ClaimantDomain = MachineClaimant | BootClaimant

  /** SHA-256 over domain, fingerprint and raw identifier, as an arbitrary function. */
  type Hash = (ClaimantDomain, string, string) -> string

  /** The claim the guard derives for its own host. */
  function OwnClaim(hash: Hash, h: Host): Claim {
    Claim(h.node, h.address, h.fingerprint,
          hash(MachineClaimant, h.fingerprint, h.machineId), hash(BootClaimant, h.fingerprint, h.bootId))
  }

  /** No two hosts of this fleet run into a digest collision. */
  ghost predicate CollisionFree(hash: Hash, fleet: set<Host>) {
    forall g, h :: g in fleet && h in fleet && g.fingerprint == h.fingerprint ==>
      && (hash(MachineClaimant, g.fingerprint, g.machineId) == hash(MachineClaimant, h.fingerprint, h.machineId)
          ==> g.machineId == h.machineId)
      && (hash(BootClaimant, g.fingerprint, g.bootId) == hash(BootClaimant, h.fingerprint, h.bootId)
          ==> g.bootId == h.bootId)
  }

  predicate HostsApart(g: Host, h: Host) {
    g.node != h.node && g.address != h.address && g.fingerprint != h.fingerprint
  }

  /**
    If every accepted claim belongs to a host of the fleet and every host has its claim there, all guards say safe
    exactly if any two different hosts differ in node, address and fingerprint. A copied identity on another machine,
    or on the same machine in another boot, is a different host.
  */
  lemma FleetIsSafeExactlyIfUnique(hash: Hash, fleet: set<Host>, entries: seq<Entry>, revision: int)
    requires EachValid(entries, revision) && InOrder(entries) && CollisionFree(hash, fleet)
    requires forall c :: c in ClaimsOf(entries, revision) <==> exists h :: h in fleet && OwnClaim(hash, h) == c
    ensures (forall h :: h in fleet ==> NoCollision(OwnClaim(hash, h), ClaimsOf(entries, revision)))
       <==> (forall g, h :: g in fleet && h in fleet && g != h ==> HostsApart(g, h))
  {
    var claims := ClaimsOf(entries, revision);
    if forall h :: h in fleet ==> NoCollision(OwnClaim(hash, h), claims) {
      forall g, h | g in fleet && h in fleet && g != h ensures HostsApart(g, h) {
        assert OwnClaim(hash, g) in claims;
        var i :| 0 <= i < |claims| && claims[i] == OwnClaim(hash, g);
        assert NoCollision(OwnClaim(hash, h), claims) && Compatible(OwnClaim(hash, h), claims[i]);
      }
    }
    if forall g, h :: g in fleet && h in fleet && g != h ==> HostsApart(g, h) {
      forall h, i | h in fleet && 0 <= i < |claims| ensures Compatible(OwnClaim(hash, h), claims[i]) {
        assert claims[i] in claims;
        var g :| g in fleet && OwnClaim(hash, g) == claims[i];
        if g != h {
          assert HostsApart(g, h);
        }
      }
    }
  }
}
