/**
 * Facts about sequences used across the pipeline: distinctness and
 * pandas' `drop_duplicates()` with its default `keep='first'`.
 */
module Sequences {

  /** No element occurs twice. */
  ghost predicate Distinct<T>(s: seq<T>) {
    forall i, j :: 0 <= i < j < |s| ==> s[i] != s[j]
  }

  /** The set of elements of `s`. */
  function Elements<T>(s: seq<T>): set<T> {
    set x | x in s
  }

  /** Index of the first occurrence of `x` in `s`. */
  function FirstIndex<T(==)>(s: seq<T>, x: T): (i: nat)
    requires x in s
    ensures i < |s| && s[i] == x && x !in s[..i]
  {
    if s[0] == x then 0
    else
      assert x in s[1..];
      var k := FirstIndex(s[1..], x);
      assert s[..k + 1] == [s[0]] + s[1..][..k];
      k + 1
  }

  /** Past a different head, the first index is one more than in the tail. */
  lemma FirstIndexTail<T>(s: seq<T>, x: T)
    requires x in s && x != s[0]
    ensures x in s[1..] && FirstIndex(s, x) == 1 + FirstIndex(s[1..], x)
  {
  }

  /**
   * `drop_duplicates()`: element `s[i]` is kept exactly when it does not
   * already occur in `s[..i]`, so the first occurrence survives.
   */
  function DropDuplicates<T(==)>(s: seq<T>): (r: seq<T>)
    ensures |r| <= |s|
  {
    if s == [] then []
    else
      var init := s[..|s| - 1];
      if s[|s| - 1] in init then DropDuplicates(init) else DropDuplicates(init) + [s[|s| - 1]]
  }

  /** The result keeps every distinct element of the input and nothing else, once each. */
  lemma {:induction false} DropDuplicatesElements<T>(s: seq<T>)
    ensures Distinct(DropDuplicates(s))
    ensures forall x :: x in DropDuplicates(s) <==> x in s
  {
    if s != [] {
      var init := s[..|s| - 1];
      DropDuplicatesElements(init);
      assert s == init + [s[|s| - 1]];
    }
  }

  /** The rows that survive appear in the order of their first occurrence in the input. */
  lemma {:induction false} DropDuplicatesKeepsFirstOrder<T>(s: seq<T>)
    ensures forall x :: x in DropDuplicates(s) ==> x in s
    ensures forall i, j :: 0 <= i < j < |DropDuplicates(s)| ==>
      FirstIndex(s, DropDuplicates(s)[i]) < FirstIndex(s, DropDuplicates(s)[j])
  {
    DropDuplicatesElements(s);
    if s != [] {
      var init := s[..|s| - 1];
      var last := s[|s| - 1];
      var p := DropDuplicates(init);
      DropDuplicatesKeepsFirstOrder(init);
      DropDuplicatesElements(init);
      assert s == init + [last];
      forall x | x in init ensures FirstIndex(s, x) == FirstIndex(init, x) {
        var k := FirstIndex(init, x);
        assert s[..k] == init[..k];
        assert s[k] == x;
        FirstIndexUnique(s, x, k);
      }
      var r := DropDuplicates(s);
      forall i, j | 0 <= i < j < |r| ensures FirstIndex(s, r[i]) < FirstIndex(s, r[j]) {
        if last !in init && j == |p| {
          assert r[i] == p[i] && r[i] in init;
          assert FirstIndex(s, r[i]) < |init|;
          assert last !in s[..|init|];
          FirstIndexUnique(s, last, |init|);
        } else {
          assert r[i] == p[i] && r[j] == p[j];
        }
      }
    }
  }

  /** A position holding `x` with no earlier `x` is the first index of `x`. */
  lemma FirstIndexUnique<T>(s: seq<T>, x: T, k: nat)
    requires k < |s| && s[k] == x && x !in s[..k]
    ensures FirstIndex(s, x) == k
  {
    var f := FirstIndex(s, x);
    assert forall j :: 0 <= j < k ==> s[j] == s[..k][j];
    assert forall j :: 0 <= j < f ==> s[j] == s[..f][j];
  }

  /** Exactly one row survives per distinct row: |s| - |DropDuplicates(s)| rows are removed. */
  lemma {:induction false} DropDuplicatesCount<T>(s: seq<T>)
    ensures |DropDuplicates(s)| == |Elements(s)|
  {
    if s != [] {
      var init := s[..|s| - 1];
      var last := s[|s| - 1];
      DropDuplicatesCount(init);
      assert s == init + [last];
      assert Elements(s) == Elements(init) + {last};
      if last !in init {
        assert last !in Elements(init);
      } else {
        assert Elements(s) == Elements(init);
      }
    }
  }

  /** A sequence without repeats is left exactly as it is. */
  lemma {:induction false} DropDuplicatesOfDistinct<T>(s: seq<T>)
    requires Distinct(s)
    ensures DropDuplicates(s) == s
  {
    if s != [] {
      var init := s[..|s| - 1];
      assert Distinct(init);
      DropDuplicatesOfDistinct(init);
      assert s[|s| - 1] !in init;
      assert s == init + [s[|s| - 1]];
    }
  }

  /** Deduplicating twice removes nothing more. */
  lemma DropDuplicatesIdempotent<T>(s: seq<T>)
    ensures DropDuplicates(DropDuplicates(s)) == DropDuplicates(s)
  {
    DropDuplicatesElements(s);
    DropDuplicatesOfDistinct(DropDuplicates(s));
  }

  /** Appending rows that all occur already changes nothing after deduplication. */
  lemma {:induction false} DropDuplicatesAbsorbs<T>(s: seq<T>, t: seq<T>)
    requires forall x :: x in t ==> x in s
    ensures DropDuplicates(s + t) == DropDuplicates(s)
  {
    if t == [] {
      assert s + t == s;
    } else {
      var init := t[..|t| - 1];
      DropDuplicatesAbsorbs(s, init);
      assert (s + t)[..|s + t| - 1] == s + init;
      assert t[|t| - 1] in t;
    }
  }

  /** Two copies of a duplicate-free table deduplicate to one copy, in its order. */
  lemma DropDuplicatesOfRepeat<T>(s: seq<T>)
    requires Distinct(s)
    ensures DropDuplicates(s + s) == s
  {
    DropDuplicatesAbsorbs(s, s);
    DropDuplicatesOfDistinct(s);
  }
}
