/** Sequence operations the dashboard borrows from its dataframe library:
    selecting rows by a boolean mask (order kept) and `unique()` (distinct
    values in first-appearance order), with the facts the pipeline needs. */
module Seqs {

  predicate NoDuplicates<T(==,!new)>(s: seq<T>) {
    forall i, j :: 0 <= i < j < |s| ==> s[i] != s[j]
  }

  /** a can be obtained from b by deleting elements (relative order kept). */
  predicate IsSubsequence<T(==,!new)>(a: seq<T>, b: seq<T>)
    decreases |b|
  {
    a == [] ||
    (b != [] &&
      ((a[|a| - 1] == b[|b| - 1] && IsSubsequence(a[..|a| - 1], b[..|b| - 1])) ||
       IsSubsequence(a, b[..|b| - 1])))
  }

  lemma {:induction false} SubsequenceLength<T(!new)>(a: seq<T>, b: seq<T>)
    requires IsSubsequence(a, b)
    ensures |a| <= |b|
    decreases |b|
  {
    if a != [] {
      if a[|a| - 1] == b[|b| - 1] && IsSubsequence(a[..|a| - 1], b[..|b| - 1]) {
        SubsequenceLength(a[..|a| - 1], b[..|b| - 1]);
      } else {
        SubsequenceLength(a, b[..|b| - 1]);
      }
    }
  }

  lemma {:induction false} SubsequenceReflexive<T(!new)>(s: seq<T>)
    ensures IsSubsequence(s, s)
    decreases |s|
  {
    if s != [] {
      SubsequenceReflexive(s[..|s| - 1]);
    }
  }

  lemma {:induction false} SubsequenceTransitive<T(!new)>(a: seq<T>, b: seq<T>, c: seq<T>)
    requires IsSubsequence(a, b) && IsSubsequence(b, c)
    ensures IsSubsequence(a, c)
    decreases |c|
  {
    if a != [] {
      var c' := c[..|c| - 1];
      if IsSubsequence(b, c') {
        SubsequenceTransitive(a, b, c');
      } else {
        var b' := b[..|b| - 1];
        assert b[|b| - 1] == c[|c| - 1] && IsSubsequence(b', c');
        if a[|a| - 1] == b[|b| - 1] && IsSubsequence(a[..|a| - 1], b') {
          SubsequenceTransitive(a[..|a| - 1], b', c');
        } else {
          SubsequenceTransitive(a, b', c');
        }
      }
    }
  }

  /** The elements of s for which p holds, in their original order. */
  function Retain<T(==,!new)>(s: seq<T>, p: T -> bool): (r: seq<T>)
    ensures |r| <= |s|
    ensures forall x :: x in r <==> x in s && p(x)
  {
    if s == [] then []
    else
      var init := Retain(s[..|s| - 1], p);
      assert s == s[..|s| - 1] + [s[|s| - 1]];
      if p(s[|s| - 1]) then init + [s[|s| - 1]] else init
  }

  lemma {:induction false} RetainIsSubsequence<T(!new)>(s: seq<T>, p: T -> bool)
    ensures IsSubsequence(Retain(s, p), s)
    decreases |s|
  {
    if s != [] {
      var init := Retain(s[..|s| - 1], p);
      RetainIsSubsequence(s[..|s| - 1], p);
      if p(s[|s| - 1]) {
        assert (init + [s[|s| - 1]])[..|init|] == init;
      }
    }
  }

  /** Retain keeps every element the predicate admits as often as it occurs,
      and nothing else. */
  lemma {:induction false} RetainCounts<T(!new)>(s: seq<T>, p: T -> bool)
    ensures forall x :: multiset(Retain(s, p))[x] == if p(x) then multiset(s)[x] else 0
    decreases |s|
  {
    if s != [] {
      var init := s[..|s| - 1];
      RetainCounts(init, p);
      assert s == init + [s[|s| - 1]];
      assert multiset(s) == multiset(init) + multiset{s[|s| - 1]};
    }
  }

  lemma {:induction false} RetainAll<T(!new)>(s: seq<T>, p: T -> bool)
    requires forall x :: x in s ==> p(x)
    ensures Retain(s, p) == s
    decreases |s|
  {
    if s != [] {
      RetainAll(s[..|s| - 1], p);
      assert s == s[..|s| - 1] + [s[|s| - 1]];
    }
  }

  lemma {:induction false} RetainNone<T(!new)>(s: seq<T>, p: T -> bool)
    requires forall x :: x in s ==> !p(x)
    ensures Retain(s, p) == []
    decreases |s|
  {
    if s != [] {
      RetainNone(s[..|s| - 1], p);
    }
  }

  lemma {:induction false} RetainExtensional<T(!new)>(s: seq<T>, p: T -> bool, q: T -> bool)
    requires forall x :: x in s ==> p(x) == q(x)
    ensures Retain(s, p) == Retain(s, q)
    decreases |s|
  {
    if s != [] {
      RetainExtensional(s[..|s| - 1], p, q);
    }
  }

  /** Two selections in a row are one selection by the conjunction. */
  lemma {:induction false} RetainRetain<T(!new)>(s: seq<T>, p: T -> bool, q: T -> bool, pq: T -> bool)
    requires forall x :: x in s ==> pq(x) == (p(x) && q(x))
    ensures Retain(Retain(s, p), q) == Retain(s, pq)
    decreases |s|
  {
    if s != [] {
      var init := s[..|s| - 1];
      var last := s[|s| - 1];
      RetainRetain(init, p, q, pq);
      if p(last) {
        var r := Retain(init, p);
        assert (r + [last])[..|r|] == r;
      }
    }
  }

  /** Selecting by a stronger predicate gives a subsequence of selecting by a weaker one. */
  lemma {:induction false} RetainStronger<T(!new)>(s: seq<T>, p: T -> bool, q: T -> bool)
    requires forall x :: x in s && p(x) ==> q(x)
    ensures IsSubsequence(Retain(s, p), Retain(s, q))
    decreases |s|
  {
    if s != [] {
      var init := s[..|s| - 1];
      var last := s[|s| - 1];
      var rp, rq := Retain(init, p), Retain(init, q);
      RetainStronger(init, p, q);
      if p(last) {
        assert (rp + [last])[..|rp|] == rp;
        assert (rq + [last])[..|rq|] == rq;
      } else if q(last) {
        assert (rq + [last])[..|rq|] == rq;
      }
    }
  }

  /** Index of the first occurrence of x in s. */
  function FirstIndex<T(==,!new)>(s: seq<T>, x: T): (k: nat)
    requires x in s
    ensures k < |s| && s[k] == x && x !in s[..k]
  {
    if s[0] == x then 0
    else
      var k := 1 + FirstIndex(s[1..], x);
      assert s[..k] == [s[0]] + s[1..][..k - 1];
      k
  }

  lemma FirstIndexIs<T(!new)>(s: seq<T>, x: T, k: nat)
    requires k < |s| && s[k] == x && x !in s[..k]
    ensures FirstIndex(s, x) == k
  {
  }

  /** pandas `unique()`: the distinct values of s, each at its first appearance. */
  function Unique<T(==,!new)>(s: seq<T>): (u: seq<T>)
    ensures NoDuplicates(u)
    ensures forall x :: x in u <==> x in s
    ensures |u| <= |s|
  {
    if s == [] then []
    else
      var init := Unique(s[..|s| - 1]);
      assert s == s[..|s| - 1] + [s[|s| - 1]];
      if s[|s| - 1] in s[..|s| - 1] then init else init + [s[|s| - 1]]
  }

  /** The distinct values come out ordered by where each first appears. */
  lemma {:induction false} UniqueInFirstAppearanceOrder<T(!new)>(s: seq<T>)
    ensures forall i, j :: 0 <= i < j < |Unique(s)| ==>
      FirstIndex(s, Unique(s)[i]) < FirstIndex(s, Unique(s)[j])
    decreases |s|
  {
    if s != [] {
      var n := |s| - 1;
      var init := s[..n];
      var u0 := Unique(init);
      UniqueInFirstAppearanceOrder(init);
      forall x | x in init
        ensures FirstIndex(s, x) == FirstIndex(init, x)
      {
        var k := FirstIndex(init, x);
        assert s[..k] == init[..k];
        FirstIndexIs(s, x, k);
      }
      if s[n] !in init {
        assert s[..n] == init;
        FirstIndexIs(s, s[n], n);
      }
    }
  }

  lemma {:induction false} UniqueIsSubsequence<T(!new)>(s: seq<T>)
    ensures IsSubsequence(Unique(s), s)
    decreases |s|
  {
    if s != [] {
      var init := s[..|s| - 1];
      var u0 := Unique(init);
      UniqueIsSubsequence(init);
      if s[|s| - 1] in init {
        assert IsSubsequence(Unique(s), init);
      } else {
        assert (u0 + [s[|s| - 1]])[..|u0|] == u0;
      }
    }
  }

  /** Appending values that already occurred does not change the distinct values. */
  lemma {:induction false} UniqueAppendSeen<T(!new)>(s: seq<T>, t: seq<T>)
    requires forall x :: x in t ==> x in s
    ensures Unique(s + t) == Unique(s)
    decreases |t|
  {
    if t != [] {
      var t' := t[..|t| - 1];
      assert (s + t)[..|s + t| - 1] == s + t';
      assert (s + t)[|s + t| - 1] == t[|t| - 1];
      assert t[|t| - 1] in s + t';
      assert Unique(s + t) == Unique(s + t');
      UniqueAppendSeen(s, t');
    } else {
      assert s + t == s;
    }
  }

  /** `unique()` keeps every value exactly when no value repeats. */
  lemma {:induction false} UniqueLengthIffDistinct<T(!new)>(s: seq<T>)
    ensures |Unique(s)| == |s| <==> NoDuplicates(s)
    ensures NoDuplicates(s) ==> Unique(s) == s
    decreases |s|
  {
    if s != [] {
      var n := |s| - 1;
      var init := s[..n];
      UniqueLengthIffDistinct(init);
      if s[n] in init {
        var k :| 0 <= k < n && init[k] == s[n];
        assert !NoDuplicates(s);
      } else {
        assert s == init + [s[n]];
        assert NoDuplicates(s) <==> NoDuplicates(init);
      }
    }
  }
}
