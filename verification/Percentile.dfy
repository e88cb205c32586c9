/** The nearest-rank 95th percentile: what a bound on it says about the values. */
module Percentile {
  import opened Bytes

  function Ordered(values: seq<nat>): seq<nat> {
    Sort((a: nat, b: nat) => a < b, values)
  }

  /** ceil(19 n / 20), the rank of the 95th percentile among n values. */
  function Rank95(n: nat): nat {
    (19 * n + 19) / 20
  }

  function Percentile95(values: seq<nat>): nat {
    if values == [] then 0
    else
      OrderedIsOrdered(values);
      Ordered(values)[Rank95(|values|) - 1]
  }

  function AtMost(values: seq<nat>, limit: nat): nat {
    if values == [] then 0 else AtMost(values[..|values| - 1], limit) + if values[|values| - 1] <= limit then 1 else 0
  }

  predicate IsOrdered(s: seq<nat>) {
    forall i, j :: 0 <= i < j < |s| ==> s[i] <= s[j]
  }

  lemma OrderedFromFirst(first: nat, rest: seq<nat>)
    requires IsOrdered(rest) && forall y :: y in multiset(rest) ==> first <= y
    ensures IsOrdered([first] + rest)
  {
    forall i | 0 <= i < |rest| ensures first <= rest[i] {
      assert rest[i] in multiset(rest);
    }
  }

  lemma RestIsOrdered(s: seq<nat>)
    requires IsOrdered(s) && s != []
    ensures IsOrdered(s[1..]) && forall y :: y in multiset(s[1..]) ==> s[0] <= y
  {}

  lemma {:induction false} InsertKeepsOrder(x: nat, s: seq<nat>)
    requires IsOrdered(s)
    ensures var less := (a: nat, b: nat) => a < b; var r := Insert(less, x, s);
      IsOrdered(r) && |r| == |s| + 1
  {
    var less := (a: nat, b: nat) => a < b;
    if s == [] {
    } else if less(x, s[0]) {
      OrderedFromFirst(x, s);
    } else {
      hide IsOrdered;
      RestIsOrdered(s);
      InsertKeepsOrder(x, s[1..]);
      OrderedFromFirst(s[0], Insert(less, x, s[1..]));
    }
  }

  lemma {:induction false} OrderedIsOrdered(values: seq<nat>)
    ensures IsOrdered(Ordered(values)) && |Ordered(values)| == |values|
  {
    if values == [] {
    } else {
      var n := |values| - 1;
      OrderedIsOrdered(values[..n]);
      InsertKeepsOrder(values[n], Ordered(values[..n]));
    }
  }

  lemma {:induction false} AtMostAdds(a: seq<nat>, b: seq<nat>, limit: nat)
    ensures AtMost(a + b, limit) == AtMost(a, limit) + AtMost(b, limit)
  {
    if b == [] {
      assert a + b == a;
    } else {
      assert (a + b)[..|a + b| - 1] == a + b[..|b| - 1];
      AtMostAdds(a, b[..|b| - 1], limit);
    }
  }

  lemma {:induction false} InsertCounts(x: nat, s: seq<nat>, limit: nat)
    ensures AtMost(Insert((a: nat, b: nat) => a < b, x, s), limit) == AtMost(s, limit) + if x <= limit then 1 else 0
  {
    var less := (a: nat, b: nat) => a < b;
    assert AtMost([x], limit) == if x <= limit then 1 else 0 by { assert [x][..0] == []; }
    if s == [] {
    } else if less(x, s[0]) {
      AtMostAdds([x], s, limit);
    } else {
      InsertCounts(x, s[1..], limit);
      AtMostAdds([s[0]], s[1..], limit);
      AtMostAdds([s[0]], Insert(less, x, s[1..]), limit);
      assert s == [s[0]] + s[1..];
    }
  }

  lemma {:induction false} OrderedCounts(values: seq<nat>, limit: nat)
    ensures AtMost(Ordered(values), limit) == AtMost(values, limit)
  {
    if values == [] {
    } else {
      var n := |values| - 1;
      OrderedCounts(values[..n], limit);
      InsertCounts(values[n], Ordered(values[..n]), limit);
    }
  }

  /** In an ordered list the values up to a limit come first. */
  lemma {:induction false} CountInOrder(s: seq<nat>, limit: nat, k: nat)
    requires IsOrdered(s) && k < |s|
    ensures s[k] <= limit <==> AtMost(s, limit) > k
    decreases |s|
  {
    var n := |s| - 1;
    if k < n {
      CountInOrder(s[..n], limit, k);
      if s[k] > limit {
        assert s[n] >= s[k];
      }
    } else {
      CountIsBounded(s[..n], limit);
      if s[n] <= limit {
        assert forall i :: 0 <= i < n ==> s[i] <= s[n];
        AllCount(s[..n], limit);
      }
    }
  }

  lemma {:induction false} CountIsBounded(s: seq<nat>, limit: nat)
    ensures AtMost(s, limit) <= |s|
  {
    if s == [] {
    } else {
      CountIsBounded(s[..|s| - 1], limit);
    }
  }

  lemma {:induction false} AllCount(s: seq<nat>, limit: nat)
    requires forall i :: 0 <= i < |s| ==> s[i] <= limit
    ensures AtMost(s, limit) == |s|
  {
    if s == [] {
    } else {
      AllCount(s[..|s| - 1], limit);
    }
  }

  /** The percentile is one of the values, and it is within a limit exactly if at least 95 in 100 of the values are. */
  lemma PercentileMeaning(values: seq<nat>, limit: nat)
    requires values != []
    ensures Percentile95(values) in values
    ensures Percentile95(values) <= limit <==> 20 * AtMost(values, limit) >= 19 * |values|
  {
    var s, k := Ordered(values), Rank95(|values|) - 1;
    OrderedIsOrdered(values);
    OrderedCounts(values, limit);
    CountInOrder(s, limit, k);
    SortKeepsElements((a: nat, b: nat) => a < b, values);
    assert s[k] in s;
  }
}
