/** Sizes of finite sets, for the pigeonhole arguments. */
module Counting {

  function Below(n: nat): (s: set<nat>)
    ensures |s| == n
    ensures forall k: nat :: k in s <==> k < n
  {
    if n == 0 then {} else Below(n - 1) + {n - 1}
  }

  lemma SubsetSize<T>(a: set<T>, b: set<T>)
    requires a <= b
    ensures |a| <= |b|
  {
    assert b == a + (b - a);
  }

  function Elements<T(!new)>(s: seq<T>): (e: set<T>)
    ensures forall x :: x in e <==> x in s
    ensures |e| <= |s|
  {
    if s == [] then {}
    else
      var n := |s| - 1;
      assert forall x :: x in s <==> x in s[..n] || x == s[n];
      Elements(s[..n]) + {s[n]}
  }

  predicate Distinct<T(==)>(s: seq<T>) { forall i, j :: 0 <= i < j < |s| ==> s[i] != s[j] }

  lemma DistinctCons<T>(x: T, s: seq<T>)
    requires Distinct(s) && x !in s
    ensures Distinct([x] + s)
  {
  }

  lemma DistinctTail<T>(s: seq<T>)
    requires s != [] && Distinct(s)
    ensures Distinct(s[1..]) && s[0] !in s[1..]
  {
  }

  lemma {:induction false} DistinctSize<T(!new)>(s: seq<T>)
    requires Distinct(s)
    ensures |Elements(s)| == |s|
  {
    if s != [] {
      var n := |s| - 1;
      DistinctSize(s[..n]);
      assert s[n] !in s[..n];
    }
  }

  /** Distinct numbers below a bound are at most that many. */
  lemma DistinctBelow(image: seq<nat>, bound: nat)
    requires Distinct(image) && forall k :: 0 <= k < |image| ==> image[k] < bound
    ensures |image| <= bound
  {
    DistinctSize(image);
    SubsetSize(Elements(image), Below(bound));
  }

  /** At most one pair for each number below the bound. */
  lemma {:induction false} PairsBelow<T>(pairs: set<(nat, T)>, bound: nat)
    requires forall p :: p in pairs ==> p.0 < bound
    requires forall p, q :: p in pairs && q in pairs && p.0 == q.0 ==> p == q
    ensures |pairs| <= bound
  {
    if p :| p in pairs && p.0 == bound - 1 {
      PairsBelow(pairs - {p}, bound - 1);
    } else if bound > 0 {
      PairsBelow(pairs, bound - 1);
    } else {
      assert forall p :: p !in pairs;
    }
  }
}
