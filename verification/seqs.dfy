/**
  Row-sequence combinators: a frame operation that touches every row is a
  `Map`, one that drops rows is a `Filter`, and `drop_duplicates()` is
  `FirstOccurrences`. All are defined from the end of the sequence.
 */
module Seqs {

  function Map<T, U>(s: seq<T>, f: T -> U): (r: seq<U>)
    ensures |r| == |s|
    ensures forall i :: 0 <= i < |s| ==> r[i] == f(s[i])
  {
    if |s| == 0 then [] else Map(s[..|s| - 1], f) + [f(s[|s| - 1])]
  }

  /** The elements of `s` that satisfy `keep`, in their original order. */
  function Filter<T(==)>(s: seq<T>, keep: T -> bool): (r: seq<T>)
    ensures |r| <= |s|
    ensures forall i :: 0 <= i < |r| ==> keep(r[i])
  {
    if |s| == 0 then []
    else
      assert s == s[..|s| - 1] + [s[|s| - 1]];
      Filter(s[..|s| - 1], keep) + (if keep(s[|s| - 1]) then [s[|s| - 1]] else [])
  }

  function Compose<A, B, C>(f: A -> B, g: B -> C): A -> C {
    x => g(f(x))
  }

  function Both<T>(p: T -> bool, q: T -> bool): T -> bool {
    x => p(x) && q(x)
  }

  /** `a` can be obtained from `b` by deleting elements, keeping the order of the rest. */
  predicate IsSubsequence<T(==)>(a: seq<T>, b: seq<T>)
    decreases |b|
  {
    || |a| == 0
    || (&& |b| > 0
        && (|| (a[|a| - 1] == b[|b| - 1] && IsSubsequence(a[..|a| - 1], b[..|b| - 1]))
            || IsSubsequence(a, b[..|b| - 1])))
  }

  /** The position of the first occurrence of `x` in `s`. */
  function FirstIndex<T(==)>(s: seq<T>, x: T): (i: nat)
    requires x in s
    ensures i < |s| && s[i] == x && x !in s[..i]
  {
    if x in s[..|s| - 1] then
      var i := FirstIndex(s[..|s| - 1], x);
      assert s[..|s| - 1][..i] == s[..i];
      i
    else
      assert s == s[..|s| - 1] + [s[|s| - 1]];
      |s| - 1
  }

  /** Every element of `s` at its first occurrence, later repeats dropped
      (pandas `drop_duplicates()` with the default `keep="first"`). */
  function FirstOccurrences<T(==)>(s: seq<T>): (r: seq<T>)
    ensures |r| <= |s|
    ensures forall i :: 0 <= i < |r| ==> r[i] in s
    ensures forall i, j :: 0 <= i < j < |r| ==> r[i] != r[j]
  {
    if |s| == 0 then []
    else
      var init := FirstOccurrences(s[..|s| - 1]);
      assert s == s[..|s| - 1] + [s[|s| - 1]];
      if s[|s| - 1] in s[..|s| - 1] then init else init + [s[|s| - 1]]
  }

  /** Exactly the elements of `s` that satisfy `keep` are kept. */
  lemma {:induction false} FilterMembers<T>(s: seq<T>, keep: T -> bool)
    ensures forall x :: x in Filter(s, keep) <==> x in s && keep(x)
  {
    if |s| > 0 {
      var n := |s| - 1;
      FilterMembers(s[..n], keep);
      assert s == s[..n] + [s[n]];
    }
  }

  /** Deduplication loses no value and invents none. */
  lemma {:induction false} FirstOccurrencesMembers<T>(s: seq<T>)
    ensures forall x :: x in FirstOccurrences(s) <==> x in s
  {
    if |s| > 0 {
      var n := |s| - 1;
      FirstOccurrencesMembers(s[..n]);
      assert s == s[..n] + [s[n]];
    }
  }

  /** The survivors of deduplication appear in the order of their first
      occurrence in the input. Together with the contract of
      `FirstOccurrences` this pins the result down completely. */
  predicate InFirstOccurrenceOrder<T(==)>(s: seq<T>, r: seq<T>)
    requires forall k :: 0 <= k < |r| ==> r[k] in s
  {
    forall i, j :: 0 <= i < j < |r| ==> FirstIndex(s, r[i]) < FirstIndex(s, r[j])
  }

  lemma {:induction false} FirstOccurrencesOrder<T>(s: seq<T>)
    ensures InFirstOccurrenceOrder(s, FirstOccurrences(s))
  {
    if |s| > 0 {
      var n := |s| - 1;
      var init := s[..n];
      var r := FirstOccurrences(s);
      var r0 := FirstOccurrences(init);
      FirstOccurrencesOrder(init);
      FirstOccurrencesMembers(init);
      assert InFirstOccurrenceOrder(init, r0);
      if s[n] in init {
        assert r == r0;
      } else {
        assert r == r0 + [s[n]];
        assert FirstIndex(s, s[n]) == n;
      }
      forall i, j | 0 <= i < j < |r| ensures FirstIndex(s, r[i]) < FirstIndex(s, r[j]) {
        assert r[i] == r0[i] && r0[i] in init;
        FirstIndexInit(s, r0[i]);
        if j < |r0| {
          assert r[j] == r0[j] && r0[j] in init;
          FirstIndexInit(s, r0[j]);
        }
      }
    }
  }

  /** An element of all but the last position is first found there. */
  lemma FirstIndexInit<T>(s: seq<T>, x: T)
    requires |s| > 0 && x in s[..|s| - 1]
    ensures FirstIndex(s, x) == FirstIndex(s[..|s| - 1], x) < |s| - 1
  {
  }

  /** An imperative `drop_duplicates()`: one pass with a set of rows already seen. */
  method DropDuplicates<T(==)>(s: seq<T>) returns (r: seq<T>)
    ensures r == FirstOccurrences(s)
  {
    r := [];
    var seen: set<T> := {};
    var i := 0;
    while i < |s|
      invariant 0 <= i <= |s|
      invariant r == FirstOccurrences(s[..i])
      invariant forall x :: x in seen <==> x in s[..i]
    {
      assert s[..i + 1][..i] == s[..i];
      assert s[..i + 1] == s[..i] + [s[i]];
      if s[i] !in seen {
        r := r + [s[i]];
        seen := seen + {s[i]};
      }
      i := i + 1;
    }
    assert s[..i] == s;
  }

  lemma {:induction false} FilterIsSubsequence<T>(s: seq<T>, keep: T -> bool)
    ensures IsSubsequence(Filter(s, keep), s)
  {
    if |s| > 0 {
      var n := |s| - 1;
      var r0 := Filter(s[..n], keep);
      FilterIsSubsequence(s[..n], keep);
      if keep(s[n]) {
        var r := r0 + [s[n]];
        assert Filter(s, keep) == r;
        assert r[..|r| - 1] == r0 && r[|r| - 1] == s[n];
      } else {
        assert Filter(s, keep) == r0;
      }
    }
  }

  lemma {:induction false} FirstOccurrencesIsSubsequence<T>(s: seq<T>)
    ensures IsSubsequence(FirstOccurrences(s), s)
  {
    if |s| > 0 {
      var n := |s| - 1;
      var r0 := FirstOccurrences(s[..n]);
      FirstOccurrencesIsSubsequence(s[..n]);
      if s[n] !in s[..n] {
        var r := r0 + [s[n]];
        assert FirstOccurrences(s) == r;
        assert r[..|r| - 1] == r0 && r[|r| - 1] == s[n];
      } else {
        assert FirstOccurrences(s) == r0;
      }
    }
  }

  /** Being a subsequence is transitive. */
  lemma {:induction false} SubsequenceTrans<T>(a: seq<T>, b: seq<T>, c: seq<T>)
    requires IsSubsequence(a, b) && IsSubsequence(b, c)
    ensures IsSubsequence(a, c)
    decreases |c|
  {
    if |a| > 0 {
      var c' := c[..|c| - 1];
      if IsSubsequence(b, c') {
        SubsequenceTrans(a, b, c');
      } else {
        var b' := b[..|b| - 1];
        assert b[|b| - 1] == c[|c| - 1] && IsSubsequence(b', c');
        if a[|a| - 1] == b[|b| - 1] && IsSubsequence(a[..|a| - 1], b') {
          SubsequenceTrans(a[..|a| - 1], b', c');
        } else {
          SubsequenceTrans(a, b', c');
        }
      }
    }
  }

  /** A filter-then-map holds the image of exactly the kept elements. */
  lemma MapFilterMembers<T, U>(s: seq<T>, keep: T -> bool, f: T -> U)
    ensures forall x :: x in s && keep(x) ==> f(x) in Map(Filter(s, keep), f)
    ensures forall y :: y in Map(Filter(s, keep), f) ==> exists x :: x in s && keep(x) && y == f(x)
  {
    var kept := Filter(s, keep);
    var r := Map(kept, f);
    FilterMembers(s, keep);
    forall x | x in s && keep(x) ensures f(x) in r {
      assert x in kept;
      var i :| 0 <= i < |kept| && kept[i] == x;
      assert r[i] == f(x);
    }
    forall y | y in r ensures exists x :: x in s && keep(x) && y == f(x) {
      var i :| 0 <= i < |r| && r[i] == y;
      assert kept[i] in kept;
    }
  }

  /** Some value occurs twice in `s`. */
  predicate HasRepeat<T(==)>(s: seq<T>) {
    exists i, j :: 0 <= i < j < |s| && s[i] == s[j]
  }

  /** Two distinct kept elements with the same image give a repeated element
      of the filter-then-map. */
  lemma MapFilterCollide<T, U>(s: seq<T>, keep: T -> bool, f: T -> U, x: T, y: T)
    requires x in s && y in s && x != y
    requires keep(x) && keep(y) && f(x) == f(y)
    ensures HasRepeat(Map(Filter(s, keep), f))
  {
    var kept := Filter(s, keep);
    var r := Map(kept, f);
    FilterMembers(s, keep);
    assert x in kept && y in kept;
    var a :| 0 <= a < |kept| && kept[a] == x;
    var b :| 0 <= b < |kept| && kept[b] == y;
    assert r[a] == r[b];
    if a < b {
      assert 0 <= a < b < |r| && r[a] == r[b];
    } else {
      assert 0 <= b < a < |r| && r[b] == r[a];
    }
  }

  lemma MapMap<A, B, C>(s: seq<A>, f: A -> B, g: B -> C)
    ensures Map(Map(s, f), g) == Map(s, Compose(f, g))
  {
  }

  lemma MapSnoc<A, B>(s: seq<A>, x: A, f: A -> B)
    ensures Map(s + [x], f) == Map(s, f) + [f(x)]
  {
  }

  lemma FilterSnoc<T>(s: seq<T>, x: T, keep: T -> bool)
    ensures Filter(s + [x], keep) == Filter(s, keep) + (if keep(x) then [x] else [])
  {
    assert (s + [x])[..|s|] == s;
  }

  /** Dropping rows after a row-wise map is the same as dropping, before the
      map, the rows whose image would be dropped. */
  lemma {:induction false} FilterMap<A, B>(s: seq<A>, f: A -> B, keep: B -> bool)
    ensures Filter(Map(s, f), keep) == Map(Filter(s, Compose(f, keep)), f)
  {
    if |s| > 0 {
      var n := |s| - 1;
      var init := s[..n];
      assert s == init + [s[n]];
      FilterMap(init, f, keep);
      MapSnoc(init, s[n], f);
      FilterSnoc(Map(init, f), f(s[n]), keep);
      FilterSnoc(init, s[n], Compose(f, keep));
      var kept := Filter(init, Compose(f, keep));
      if keep(f(s[n])) {
        MapSnoc(kept, s[n], f);
      }
    }
  }

  /** Two successive filters are one filter on the conjunction. */
  lemma {:induction false} FilterFilter<T>(s: seq<T>, p: T -> bool, q: T -> bool)
    ensures Filter(Filter(s, p), q) == Filter(s, Both(p, q))
  {
    if |s| > 0 {
      var n := |s| - 1;
      var init := s[..n];
      assert s == init + [s[n]];
      FilterFilter(init, p, q);
      FilterSnoc(init, s[n], p);
      FilterSnoc(init, s[n], Both(p, q));
      assert Both(p, q)(s[n]) == (p(s[n]) && q(s[n]));
      if p(s[n]) {
        assert Filter(s, p) == Filter(init, p) + [s[n]];
        FilterSnoc(Filter(init, p), s[n], q);
      } else {
        assert Filter(s, p) == Filter(init, p);
      }
    }
  }
}
