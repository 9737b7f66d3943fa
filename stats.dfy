/**
 * pandas' `Series.median()` over the non-missing values of a column: sort,
 * then take the middle value, or the mean of the two middle values when the
 * count is even; no value at all gives no median (NaN in pandas).
 */
module Stats {
  import opened Wrappers

  ghost predicate Sorted(s: seq<real>) {
    forall i, j :: 0 <= i < j < |s| ==> s[i] <= s[j]
  }

  /** The head of a sorted list is below every element of the list's tail with a larger `x` added. */
  lemma HeadBelow(x: real, s: seq<real>, t: seq<real>)
    requires Sorted(s) && s != [] && s[0] < x
    requires multiset(t) == multiset(s[1..]) + multiset{x}
    ensures forall k :: 0 <= k < |t| ==> s[0] <= t[k]
  {
    forall k | 0 <= k < |t| ensures s[0] <= t[k] {
      assert t[k] in multiset(t);
      if t[k] != x {
        assert t[k] in multiset(s[1..]);
        var i :| 0 <= i < |s[1..]| && s[1..][i] == t[k];
        assert s[i + 1] == t[k];
      }
    }
  }

  function Insert(x: real, s: seq<real>): (r: seq<real>)
    requires Sorted(s)
    ensures Sorted(r) && multiset(r) == multiset(s) + multiset{x}
  {
    if s == [] then [x]
    else if x <= s[0] then [x] + s
    else
      var r' := Insert(x, s[1..]);
      assert s == [s[0]] + s[1..];
      HeadBelow(x, s, r');
      [s[0]] + r'
  }

  /** The values of `s` in ascending order. */
  function Sort(s: seq<real>): (r: seq<real>)
    ensures Sorted(r) && multiset(r) == multiset(s)
  {
    if s == [] then []
    else
      assert s == s[..|s| - 1] + [s[|s| - 1]];
      Insert(s[|s| - 1], Sort(s[..|s| - 1]))
  }

  /** The middle value of a non-empty sorted list, or the mean of the two middle values. */
  function Middle(t: seq<real>): real
    requires t != []
  {
    var n := |t|;
    if n % 2 == 1 then t[n / 2] else (t[n / 2 - 1] + t[n / 2]) / 2.0
  }

  function Median(s: seq<real>): (m: Option<real>)
    ensures m.None? <==> s == []
  {
    if s == [] then None
    else
      var t := Sort(s);
      assert |t| == |multiset(t)| == |multiset(s)| == |s|;
      Some(Middle(t))
  }

  /**
   * The median of values that all lie in [lo, hi] lies in [lo, hi] too: it is
   * one of the values or the mean of two of them.
   */
  lemma MedianWithin(s: seq<real>, lo: real, hi: real)
    requires forall i :: 0 <= i < |s| ==> lo <= s[i] <= hi
    ensures Median(s).Some? ==> lo <= Median(s).value <= hi
  {
    if s != [] {
      var t := Sort(s);
      forall k | 0 <= k < |t| ensures lo <= t[k] <= hi {
        assert t[k] in multiset(t);
        assert t[k] in multiset(s);
        var i :| 0 <= i < |s| && s[i] == t[k];
      }
    }
  }

  /** Number of values of `s` that satisfy `p`. */
  function Count(s: seq<real>, p: real -> bool): (n: nat)
    ensures n <= |s|
  {
    if s == [] then 0 else Count(s[..|s| - 1], p) + (if p(s[|s| - 1]) then 1 else 0)
  }

  lemma {:induction false} CountAppend(a: seq<real>, b: seq<real>, p: real -> bool)
    ensures Count(a + b, p) == Count(a, p) + Count(b, p)
  {
    if b != [] {
      CountAppend(a, b[..|b| - 1], p);
      assert (a + b)[..|a + b| - 1] == a + b[..|b| - 1];
    } else {
      assert a + b == a;
    }
  }

  lemma MultisetRemove(t: seq<real>, k: nat)
    requires k < |t|
    ensures multiset(t[..k] + t[k + 1..]) == multiset(t) - multiset{t[k]}
  {
    assert t == t[..k] + [t[k]] + t[k + 1..];
  }

  /** Counting does not depend on the order of the values. */
  lemma {:induction false} CountPermutation(s: seq<real>, t: seq<real>, p: real -> bool)
    requires multiset(s) == multiset(t)
    ensures Count(s, p) == Count(t, p)
    decreases |s|
  {
    if s != [] {
      var x := s[|s| - 1];
      var init := s[..|s| - 1];
      assert x in multiset(t);
      var k :| 0 <= k < |t| && t[k] == x;
      var t' := t[..k] + t[k + 1..];
      MultisetRemove(t, k);
      MultisetRemove(s, |s| - 1);
      assert init + s[|s|..] == init;
      CountPermutation(init, t', p);
      assert t == t[..k] + ([x] + t[k + 1..]);
      CountAppend(t[..k], [x] + t[k + 1..], p);
      CountAppend([x], t[k + 1..], p);
      CountAppend(t[..k], t[k + 1..], p);
      assert Count([x], p) == Count([], p) + (if p(x) then 1 else 0) by {
        assert [x][..0] == [];
      }
    }
  }

  /** If the first `k` values satisfy `p`, at least `k` values do. */
  lemma {:induction false} CountPrefix(s: seq<real>, k: nat, p: real -> bool)
    requires k <= |s|
    requires forall i :: 0 <= i < k ==> p(s[i])
    ensures Count(s, p) >= k
  {
    if k < |s| {
      CountPrefix(s[..|s| - 1], k, p);
    } else if k > 0 {
      CountPrefix(s[..|s| - 1], k - 1, p);
    }
  }

  /** If the last `k` values satisfy `p`, at least `k` values do. */
  lemma {:induction false} CountSuffix(s: seq<real>, k: nat, p: real -> bool)
    requires k <= |s|
    requires forall i :: |s| - k <= i < |s| ==> p(s[i])
    ensures Count(s, p) >= k
  {
    if k > 0 {
      CountSuffix(s[..|s| - 1], k - 1, p);
    }
  }

  /** In a sorted list at least half of the values are at most the middle one, and at least half at least it. */
  lemma MiddleSplits(t: seq<real>, m: real)
    requires Sorted(t) && t != [] && m == Middle(t)
    ensures 2 * Count(t, x => x <= m) >= |t|
    ensures 2 * Count(t, x => x >= m) >= |t|
  {
    var n := |t|;
    if n % 2 == 1 {
      CountPrefix(t, n / 2 + 1, x => x <= m);
    } else {
      CountPrefix(t, n / 2, x => x <= m);
    }
    CountSuffix(t, n - n / 2, x => x >= m);
  }

  /**
   * The defining property of a median: at least half of the values are no
   * greater than it and at least half are no smaller.
   */
  lemma MedianSplitsValues(s: seq<real>, m: real)
    requires Median(s) == Some(m)
    ensures 2 * Count(s, x => x <= m) >= |s|
    ensures 2 * Count(s, x => x >= m) >= |s|
  {
    var t := Sort(s);
    assert |t| == |multiset(t)| == |multiset(s)| == |s|;
    MiddleSplits(t, m);
    CountPermutation(s, t, x => x <= m);
    CountPermutation(s, t, x => x >= m);
  }
}
