/** A list of distinct numbers below `n` has at most `n` entries, and with `n` entries misses none. */
module Pigeonhole {

  ghost predicate DistinctBelow(s: seq<int>, n: nat) {
    && (forall i :: 0 <= i < |s| ==> 0 <= s[i] < n)
    && (forall i, j :: 0 <= i < j < |s| ==> s[i] != s[j])
  }

  function Below(n: nat): (r: set<int>)
    ensures forall x :: x in r <==> 0 <= x < n
  {
    if n == 0 then {} else Below(n - 1) + {n - 1}
  }

  lemma {:induction false} BelowSize(n: nat)
    ensures |Below(n)| == n
  {
    if n > 0 {
      BelowSize(n - 1);
    }
  }

  function Elements(s: seq<int>): set<int> {
    set x | x in s
  }

  lemma {:induction false} DistinctSize(s: seq<int>, n: nat)
    requires DistinctBelow(s, n)
    ensures |Elements(s)| == |s|
  {
    if s != [] {
      var t := s[..|s| - 1];
      DistinctSize(t, n);
      assert s[|s| - 1] !in t;
      assert Elements(s) == Elements(t) + {s[|s| - 1]};
    }
  }

  lemma {:induction false} SubsetSize(a: set<int>, b: set<int>)
    requires a <= b
    ensures |a| <= |b| && (|a| == |b| ==> a == b)
  {
    assert b == a + (b - a);
    assert |b| == |a| + |b - a|;
  }

  lemma {:induction false} AtMost(s: seq<int>, n: nat)
    requires DistinctBelow(s, n)
    ensures |s| <= n
    ensures |s| == n ==> forall x :: 0 <= x < n ==> x in s
  {
    DistinctSize(s, n);
    BelowSize(n);
    SubsetSize(Elements(s), Below(n));
    if |s| == n {
      forall x | 0 <= x < n
        ensures x in s
      {
        assert x in Below(n) && x in Elements(s);
      }
    }
  }

  /** A list of distinct numbers that contains all numbers below `n` has at least `n` entries. */
  lemma {:induction false} AtLeast(s: seq<int>, bound: nat, n: nat)
    requires DistinctBelow(s, bound) && forall x :: 0 <= x < n ==> x in s
    ensures n <= |s|
  {
    DistinctSize(s, bound);
    BelowSize(n);
    SubsetSize(Below(n), Elements(s));
  }
}
