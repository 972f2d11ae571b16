/** Counting over the 9-entry vectors the engine inspects: occurrences of a
    digit (numpy's `np.sum(v == x)`), true entries of a candidate slice
    (`v.sum()` on a 0/1 vector) and the first true entry (`np.where(v)[0][0]`),
    together with permutations and the pigeonhole fact they rest on. */
module Counting {

  /** Number of occurrences of `x` in `s`. */
  function Count(s: seq<int>, x: int): nat
  {
    if |s| == 0 then 0 else (if s[0] == x then 1 else 0) + Count(s[1..], x)
  }

  /** No value occurs twice. */
  predicate Distinct(s: seq<int>)
  {
    forall t, u :: 0 <= t < |s| && 0 <= u < |s| && t != u ==> s[t] != s[u]
  }

  /** `s` lists each of lo, ..., lo + n - 1 once: the output of
      `random.sample(range(lo, lo + n), n)`. */
  predicate IsPermutation(s: seq<int>, lo: int, n: nat)
  {
    |s| == n && (forall t :: 0 <= t < n ==> lo <= s[t] < lo + n) && Distinct(s)
  }

  lemma {:induction false} CountPositive(s: seq<int>, x: int)
    ensures Count(s, x) > 0 <==> x in s
  {
    if |s| > 0 {
      CountPositive(s[1..], x);
      assert x in s <==> s[0] == x || x in s[1..];
    }
  }

  /** In a sequence without repeats every value occurs at most once. */
  lemma {:induction false} CountOfDistinct(s: seq<int>, x: int)
    requires Distinct(s)
    ensures Count(s, x) == if x in s then 1 else 0
  {
    if |s| > 0 {
      assert Distinct(s[1..]) by {
        forall t, u | 0 <= t < |s| - 1 && 0 <= u < |s| - 1 && t != u
          ensures s[1..][t] != s[1..][u]
        {
          assert s[1..][t] == s[t + 1] && s[1..][u] == s[u + 1];
        }
      }
      CountOfDistinct(s[1..], x);
      assert x in s <==> s[0] == x || x in s[1..];
    }
  }

  /** A value found at two different positions is counted at least twice. */
  lemma {:induction false} CountOfRepeat(s: seq<int>, x: int, t: int, u: int)
    requires 0 <= t < |s| && 0 <= u < |s| && t != u
    requires s[t] == x && s[u] == x
    ensures Count(s, x) >= 2
  {
    if t == 0 {
      assert s[1..][u - 1] == x;
      CountPositive(s[1..], x);
    } else if u == 0 {
      assert s[1..][t - 1] == x;
      CountPositive(s[1..], x);
    } else {
      assert s[1..][t - 1] == x && s[1..][u - 1] == x;
      CountOfRepeat(s[1..], x, t - 1, u - 1);
    }
  }

  /** The values of a sequence without repeats are as many as its entries. */
  lemma {:induction false} DistinctValues(s: seq<int>)
    requires Distinct(s)
    ensures |set x | x in s| == |s|
  {
    if |s| > 0 {
      var rest := s[1..];
      assert Distinct(rest) by {
        forall t, u | 0 <= t < |rest| && 0 <= u < |rest| && t != u
          ensures rest[t] != rest[u]
        {
          assert rest[t] == s[t + 1] && rest[u] == s[u + 1];
        }
      }
      DistinctValues(rest);
      assert s[0] !in rest;
      assert (set x | x in s) == {s[0]} + (set x | x in rest);
    }
  }

  /** The values lo, ..., lo + n - 1 in increasing order. */
  function Interval(lo: int, n: nat): (r: seq<int>)
    ensures IsPermutation(r, lo, n)
  {
    seq(n, t => lo + t)
  }

  /** A subset as large as its superset is all of it. */
  lemma FullSubset(small: set<int>, big: set<int>)
    requires small <= big && |small| == |big|
    ensures big <= small
  {
    var missing := big - small;
    assert big == small + missing;
    assert small * missing == {};
  }

  /** Pigeonhole: n distinct values drawn from an interval of n values take
      every value of it. */
  lemma Pigeonhole(s: seq<int>, lo: int, n: nat)
    requires IsPermutation(s, lo, n)
    ensures forall x :: lo <= x < lo + n ==> x in s
  {
    var values := set x | x in s;
    var interval := set x | x in Interval(lo, n);
    DistinctValues(s);
    DistinctValues(Interval(lo, n));
    assert values <= interval by {
      forall x | x in values ensures x in interval {
        var t :| 0 <= t < n && s[t] == x;
        assert Interval(lo, n)[x - lo] == x;
      }
    }
    FullSubset(values, interval);
    forall x | lo <= x < lo + n
      ensures x in s
    {
      assert Interval(lo, n)[x - lo] == x;
      assert x in interval;
    }
  }

  /** Number of true entries of `v` (numpy's `v.sum()` on a 0/1 vector). */
  function CountTrue(v: seq<bool>): nat
  {
    if |v| == 0 then 0 else (if v[0] then 1 else 0) + CountTrue(v[1..])
  }

  /** Index of the first true entry (numpy's `np.where(v == 1)[0][0]`). */
  function FirstTrue(v: seq<bool>): (r: nat)
    requires true in v
    ensures r < |v| && v[r]
    ensures forall u :: 0 <= u < r ==> !v[u]
  {
    if v[0] then 0 else FirstTrue(v[1..]) + 1
  }

  /** A vector with exactly one true entry: that entry is the first true one
      and every other entry is false. */
  lemma {:induction false} SingleTrue(v: seq<bool>)
    requires CountTrue(v) == 1
    ensures true in v
    ensures forall u :: 0 <= u < |v| && u != FirstTrue(v) ==> !v[u]
  {
    if v[0] {
      NoneTrue(v[1..]);
      forall u | 1 <= u < |v| ensures !v[u] {
        assert v[1..][u - 1] == v[u];
      }
    } else {
      SingleTrue(v[1..]);
      forall u | 0 <= u < |v| && u != FirstTrue(v) ensures !v[u] {
        if u > 0 {
          assert v[1..][u - 1] == v[u];
        }
      }
    }
  }

  /** A vector with no true entry is all false. */
  lemma {:induction false} NoneTrue(v: seq<bool>)
    requires CountTrue(v) == 0
    ensures forall u :: 0 <= u < |v| ==> !v[u]
  {
    if |v| > 0 {
      NoneTrue(v[1..]);
      forall u | 1 <= u < |v| ensures !v[u] {
        assert v[1..][u - 1] == v[u];
      }
    }
  }

  /** An all-false vector has no true entry, so no single. */
  lemma {:induction false} AllFalse(v: seq<bool>)
    requires forall u :: 0 <= u < |v| ==> !v[u]
    ensures CountTrue(v) == 0
  {
    if |v| > 0 {
      assert forall u :: 0 <= u < |v| - 1 ==> v[1..][u] == v[u + 1];
      AllFalse(v[1..]);
    }
  }
}
