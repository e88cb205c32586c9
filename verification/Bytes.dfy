/** Bytes and ordered lists, shared by the file-handling programs. */
module Bytes {

  newtype byte = x: int | 0 <= x < 256

  type Data = seq<byte>

  /** SHA-256 as a term: equal digests mean equal contents. */
  datatype Digest = Sha256(content: Data)

  /** All pieces, one after the other. */
  function Joined<T>(pieces: seq<seq<T>>): seq<T> {
    if pieces == [] then [] else Joined(pieces[..|pieces| - 1]) + pieces[|pieces| - 1]
  }

  lemma {:induction false} JoinedHas<T>(pieces: seq<seq<T>>, x: T)
    ensures x in Joined(pieces) <==> exists k :: 0 <= k < |pieces| && x in pieces[k]
  {
    if pieces == [] {
    } else {
      var n := |pieces| - 1;
      JoinedHas(pieces[..n], x);
      if x in Joined(pieces[..n]) {
        var k :| 0 <= k < n && x in pieces[..n][k];
        assert x in pieces[k];
      }
      if k :| 0 <= k < |pieces| && x in pieces[k] {
        assert k < n ==> x in pieces[..n][k];
      }
    }
  }

  lemma JoinedGrows<T>(pieces: seq<seq<T>>, last: seq<T>)
    ensures Joined(pieces + [last]) == Joined(pieces) + last
  {
    assert (pieces + [last])[..|pieces|] == pieces;
  }

  /** A stable insertion sort by a strict order on keys. */
  function Insert<T>(less: (T, T) -> bool, x: T, sorted: seq<T>): (r: seq<T>)
    ensures multiset(r) == multiset(sorted) + multiset{x}
  {
    if sorted == [] then [x]
    else if less(x, sorted[0]) then
      assert multiset([x] + sorted) == multiset{x} + multiset(sorted);
      [x] + sorted
    else
      assert sorted == [sorted[0]] + sorted[1..];
      [sorted[0]] + Insert(less, x, sorted[1..])
  }

  function Sort<T>(less: (T, T) -> bool, s: seq<T>): (r: seq<T>)
    ensures multiset(r) == multiset(s)
  {
    if s == [] then []
    else
      assert s == s[..|s| - 1] + [s[|s| - 1]];
      Insert(less, s[|s| - 1], Sort(less, s[..|s| - 1]))
  }

  lemma SortKeepsElements<T>(less: (T, T) -> bool, s: seq<T>)
    ensures |Sort(less, s)| == |s| && forall x :: x in Sort(less, s) <==> x in s
  {
    assert |multiset(Sort(less, s))| == |multiset(s)|;
    forall x ensures x in Sort(less, s) <==> x in s {
      assert x in multiset(Sort(less, s)) <==> x in multiset(s);
    }
  }

  lemma TwoPlacesCount<T>(s: seq<T>, i: nat, j: nat)
    requires i < j < |s| && s[i] == s[j]
    ensures multiset(s)[s[i]] >= 2
  {
    assert s == s[..j] + s[j..];
    assert s[..j][i] == s[i] && s[j..][0] == s[i];
    assert s[i] in s[..j] && s[i] in s[j..];
  }

  lemma {:induction false} CountTwoPlaces<T>(s: seq<T>, v: T) returns (p: nat, q: nat)
    requires multiset(s)[v] >= 2
    ensures p < q < |s| && s[p] == v == s[q]
  {
    var n := |s| - 1;
    assert s == s[..n] + [s[n]];
    if s[n] == v {
      assert v in multiset(s[..n]);
      p :| 0 <= p < n && s[..n][p] == v;
      q := n;
    } else {
      p, q := CountTwoPlaces(s[..n], v);
    }
  }

  /** Reordering a list cannot bring two places into conflict that were not in conflict before. */
  lemma ReorderedPair<T>(a: seq<T>, b: seq<T>, i: nat, j: nat) returns (p: nat, q: nat)
    requires multiset(a) == multiset(b) && i < j < |b|
    ensures p < q < |a| && {a[p], a[q]} == {b[i], b[j]}
  {
    if b[i] == b[j] {
      TwoPlacesCount(b, i, j);
      p, q := CountTwoPlaces(a, b[i]);
    } else {
      assert b[i] in multiset(a) && b[j] in multiset(a);
      p :| 0 <= p < |a| && a[p] == b[i];
      q :| 0 <= q < |a| && a[q] == b[j];
      if q < p {
        p, q := q, p;
      }
    }
  }
}
