/** Occurrences, distinctness, sums and the pigeonhole principle for sequences. */
module Counting {

  function Count<T(==)>(s: seq<T>, x: T): nat {
    if s == [] then 0
    else Count(s[..|s| - 1], x) + if s[|s| - 1] == x then 1 else 0
  }

  predicate Distinct<T(==)>(s: seq<T>) {
    forall i, j :: 0 <= i < j < |s| ==> s[i] != s[j]
  }

  lemma {:induction false} CountUpdate<T>(s: seq<T>, i: nat, y: T, x: T)
    requires i < |s|
    ensures Count(s[i := y], x) == Count(s, x) - (if s[i] == x then 1 else 0) + (if y == x then 1 else 0)
  {
    var k := |s| - 1;
    if i < k {
      CountUpdate(s[..k], i, y, x);
      assert s[i := y][..k] == s[..k][i := y];
    } else {
      assert s[i := y][..k] == s[..k];
    }
  }

  lemma {:induction false} CountIn<T>(s: seq<T>, x: T)
    ensures Count(s, x) > 0 <==> x in s
  {
    if s != [] {
      var k := |s| - 1;
      CountIn(s[..k], x);
      assert s == s[..k] + [s[k]];
    }
  }

  lemma {:induction false} CountDistinct<T>(s: seq<T>, x: T)
    requires Distinct(s)
    ensures Count(s, x) == if x in s then 1 else 0
  {
    if s != [] {
      var k := |s| - 1;
      CountDistinct(s[..k], x);
      assert s == s[..k] + [s[k]];
    }
  }

  // ---- Sizes ----------------------------------------------------------------------------

  ghost function Elements<T>(s: seq<T>): set<T> {
    set x | x in s
  }

  lemma {:induction false} DistinctSize<T>(s: seq<T>)
    requires Distinct(s)
    ensures |Elements(s)| == |s|
  {
    if s == [] {
      assert Elements(s) == {};
    } else {
      var k := |s| - 1;
      DistinctSize(s[..k]);
      assert Elements(s) == Elements(s[..k]) + {s[k]};
    }
  }

  ghost function Below(n: nat): (b: set<nat>)
    ensures forall i: nat :: i in b <==> i < n
    ensures |b| == n
  {
    if n == 0 then {} else Below(n - 1) + {n - 1}
  }

  lemma {:induction false} ElementsAtMost<T>(s: seq<T>)
    ensures |Elements(s)| <= |s|
  {
    if s == [] {
      assert Elements(s) == {};
    } else {
      var k := |s| - 1;
      ElementsAtMost(s[..k]);
      assert Elements(s) == Elements(s[..k]) + {s[k]};
    }
  }

  lemma SubsetSize<T>(a: set<T>, b: set<T>)
    requires a <= b
    ensures |a| <= |b|
    ensures |a| == |b| ==> a == b
  {
    assert b == a + (b - a);
  }

  /** Fewer than n entries leave out some number below n. */
  lemma Pigeonhole(s: seq<nat>, n: nat) returns (r: nat)
    requires |s| < n
    ensures r < n && r !in s
  {
    ElementsAtMost(s);
    if Below(n) <= Elements(s) {
      SubsetSize(Below(n), Elements(s));
      assert false;
    }
    r :| r in Below(n) && r !in Elements(s);
  }

  /** n distinct numbers below n are all of them. */
  lemma Full(s: seq<nat>, n: nat, x: nat)
    requires Distinct(s) && |s| == n && x < n && forall i :: 0 <= i < n ==> s[i] < n
    ensures x in s
  {
    DistinctSize(s);
    assert Elements(s) <= Below(n);
    SubsetSize(Elements(s), Below(n));
    assert x in Below(n);
  }

  // ---- Sums -----------------------------------------------------------------------------

  function Sum(s: seq<int>): int {
    if s == [] then 0 else Sum(s[..|s| - 1]) + s[|s| - 1]
  }

  lemma {:induction false} SumUpdate(s: seq<int>, i: nat, y: int)
    requires i < |s|
    ensures Sum(s[i := y]) == Sum(s) - s[i] + y
  {
    var k := |s| - 1;
    if i < k {
      SumUpdate(s[..k], i, y);
      assert s[i := y][..k] == s[..k][i := y];
    } else {
      assert s[i := y][..k] == s[..k];
    }
  }

  /** Entries of at most hi, one of them below, sum to less than hi each. */
  lemma {:induction false} SumAtMost(s: seq<int>, hi: int, i: int)
    requires forall k :: 0 <= k < |s| ==> s[k] <= hi
    ensures Sum(s) <= |s| * hi
    ensures 0 <= i < |s| && s[i] < hi ==> Sum(s) < |s| * hi
  {
    if s != [] {
      var k := |s| - 1;
      SumAtMost(s[..k], hi, i);
      assert |s| * hi == k * hi + hi;
    }
  }

  lemma {:induction false} SumAtLeast(s: seq<int>, lo: int, i: int)
    requires forall k :: 0 <= k < |s| ==> s[k] >= lo
    ensures Sum(s) >= |s| * lo
    ensures 0 <= i < |s| && s[i] > lo ==> Sum(s) > |s| * lo
  {
    if s != [] {
      var k := |s| - 1;
      SumAtLeast(s[..k], lo, i);
      assert |s| * lo == k * lo + lo;
    }
  }
}
