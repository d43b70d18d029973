/** Order-preserving sequence helpers shared by the link and row filters. */
module Seqs {

  predicate NoDuplicates<T(==)>(s: seq<T>) {
    forall i, j :: 0 <= i < j < |s| ==> s[i] != s[j]
  }

  /** a is b with some elements left out, the rest in their original order. */
  predicate IsSubsequence<T(==)>(a: seq<T>, b: seq<T>)
    decreases |b|
  {
    if a == [] then true
    else if b == [] then false
    else if a[|a| - 1] == b[|b| - 1] then IsSubsequence(a[..|a| - 1], b[..|b| - 1])
    else IsSubsequence(a, b[..|b| - 1])
  }

  lemma {:induction false} SubsequenceOfSelf<T>(s: seq<T>)
    ensures IsSubsequence(s, s)
  {
    if s != [] {
      SubsequenceOfSelf(s[..|s| - 1]);
    }
  }

  /** Keeping or dropping the last element of b preserves being a subsequence. */
  lemma SubsequenceExtend<T>(a: seq<T>, b: seq<T>, x: T)
    requires IsSubsequence(a, b)
    ensures IsSubsequence(a, b + [x])
    ensures IsSubsequence(a + [x], b + [x])
    decreases |b|, 1
  {
    assert (b + [x])[..|b|] == b;
    assert (a + [x])[..|a|] == a;
    if a != [] && a[|a| - 1] == x {
      SubsequenceDropLast(a, b);
    }
  }

  lemma {:induction false} SubsequenceDropLast<T>(a: seq<T>, b: seq<T>)
    requires a != [] && IsSubsequence(a, b)
    ensures IsSubsequence(a[..|a| - 1], b)
    decreases |b|, 0
  {
    var init := a[..|a| - 1];
    if b != [] {
      if a[|a| - 1] == b[|b| - 1] {
        SubsequenceExtend(init, b[..|b| - 1], b[|b| - 1]);
        assert b[..|b| - 1] + [b[|b| - 1]] == b;
      } else {
        SubsequenceDropLast(a, b[..|b| - 1]);
        if init != [] {
          SubsequenceExtend(init, b[..|b| - 1], b[|b| - 1]);
          assert b[..|b| - 1] + [b[|b| - 1]] == b;
        }
      }
    }
  }

  /** Being a subsequence is transitive. */
  lemma {:induction false} SubsequenceTrans<T>(a: seq<T>, b: seq<T>, c: seq<T>)
    requires IsSubsequence(a, b) && IsSubsequence(b, c)
    ensures IsSubsequence(a, c)
    decreases |c|
  {
    if a != [] {
      var c0, x := c[..|c| - 1], c[|c| - 1];
      assert c0 + [x] == c;
      var b0 := b[..|b| - 1];
      if b[|b| - 1] == x {
        if a[|a| - 1] == b[|b| - 1] {
          var a0 := a[..|a| - 1];
          SubsequenceTrans(a0, b0, c0);
          SubsequenceExtend(a0, c0, x);
          assert a0 + [x] == a;
        } else {
          SubsequenceTrans(a, b0, c0);
          SubsequenceExtend(a, c0, x);
        }
      } else {
        SubsequenceTrans(a, b, c0);
        SubsequenceExtend(a, c0, x);
      }
    }
  }

  /** The first position of x in s. */
  function FirstIndex<T(==)>(s: seq<T>, x: T): (k: nat)
    requires x in s
    ensures k < |s| && s[k] == x && x !in s[..k]
  {
    if s[0] == x then 0
    else
      var k := 1 + FirstIndex(s[1..], x);
      assert s[..k] == [s[0]] + s[1..][..k - 1];
      k
  }

  lemma FirstIndexUnique<T>(s: seq<T>, x: T, k: nat)
    requires k < |s| && s[k] == x && x !in s[..k]
    ensures FirstIndex(s, x) == k
  {
    var f := FirstIndex(s, x);
    assert forall i :: 0 <= i < k ==> s[..k][i] == s[i];
    assert forall i :: 0 <= i < f ==> s[..f][i] == s[i];
  }

  /**
   * Order-preserving de-duplication, as the scraper's `seen`-set loop performs it
   * (z_scrapper.py:237-243): an element is kept when it did not occur earlier.
   */
  function Dedupe<T(==)>(s: seq<T>): (r: seq<T>)
    ensures forall i :: 0 <= i < |r| ==> r[i] in s
    ensures forall i :: 0 <= i < |s| ==> s[i] in r
    ensures NoDuplicates(r)
    ensures |r| <= |s|
  {
    if s == [] then []
    else
      var init, x := s[..|s| - 1], s[|s| - 1];
      assert s == init + [x];
      if x in init then Dedupe(init) else Dedupe(init) + [x]
  }

  /** Dedupe keeps each element where it first occurred: their order is that of first occurrences. */
  lemma {:induction false} DedupeFirstOccurrenceOrder<T>(s: seq<T>)
    ensures forall i, j :: 0 <= i < j < |Dedupe(s)| ==>
      FirstIndex(s, Dedupe(s)[i]) < FirstIndex(s, Dedupe(s)[j])
  {
    if s != [] {
      var init, x := s[..|s| - 1], s[|s| - 1];
      var prev := Dedupe(init);
      DedupeFirstOccurrenceOrder(init);
      forall y | y in init ensures FirstIndex(s, y) == FirstIndex(init, y) {
        FirstIndexOfPrefix(s, init, y);
      }
      var r := Dedupe(s);
      if x !in init {
        assert s[..|s| - 1] == init;
        FirstIndexUnique(s, x, |s| - 1);
        forall i, j | 0 <= i < j < |r| ensures FirstIndex(s, r[i]) < FirstIndex(s, r[j]) {
          assert r[i] == prev[i] && r[i] in init;
          if j < |prev| {
            assert r[j] == prev[j];
          }
        }
      }
    }
  }

  /** An element of a prefix first occurs in the whole sequence where it first occurs in the prefix. */
  lemma FirstIndexOfPrefix<T>(s: seq<T>, init: seq<T>, y: T)
    requires |init| <= |s| && init == s[..|init|] && y in init
    ensures FirstIndex(s, y) == FirstIndex(init, y)
  {
    var k := FirstIndex(init, y);
    assert s[..k] == init[..k];
    FirstIndexUnique(s, y, k);
  }

  /** Whatever is kept by Dedupe forms a subsequence of the input. */
  lemma {:induction false} DedupeIsSubsequence<T>(s: seq<T>)
    ensures IsSubsequence(Dedupe(s), s)
  {
    if s != [] {
      var init, x := s[..|s| - 1], s[|s| - 1];
      DedupeIsSubsequence(init);
      SubsequenceExtend(Dedupe(init), init, x);
      assert init + [x] == s;
    }
  }
}
