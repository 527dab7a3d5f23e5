/** Ordering: text as Go compares it, and what a library sort promises. */
module Sorting {
  /** Lexicographic order on strings. */
  predicate TextLess(a: string, b: string)
    decreases |a|
  {
    b != [] && (a == [] || a[0] < b[0] || (a[0] == b[0] && TextLess(a[1..], b[1..])))
  }

  /** The texts part at place k: the first ends there, or has the smaller character there. */
  predicate PartsAt(a: string, b: string, k: nat) {
    k <= |a| && k < |b| && a[..k] == b[..k] && (k == |a| || a[k] < b[k])
  }

  lemma HeadsAgree(a: string, b: string, k: nat)
    requires PartsAt(a, b, k) && k > 0
    ensures a[0] == b[0]
  {
    assert a[..k][0] == b[..k][0];
  }

  lemma {:induction false} TextOrderIsLexicographic(a: string, b: string)
    ensures TextLess(a, b) <==> exists k: nat :: PartsAt(a, b, k)
    decreases |a|
  {
    if a == [] || b == [] || a[0] != b[0] {
      assert b != [] && (a == [] || a[0] < b[0]) ==> PartsAt(a, b, 0);
      if k: nat :| PartsAt(a, b, k) {
        if k > 0 {
          HeadsAgree(a, b, k);
        }
      }
    } else {
      TextOrderIsLexicographic(a[1..], b[1..]);
      if k: nat :| PartsAt(a[1..], b[1..], k) {
        assert a[..k + 1] == [a[0]] + a[1..][..k] && b[..k + 1] == [b[0]] + b[1..][..k];
        assert PartsAt(a, b, k + 1);
      }
      if k: nat :| PartsAt(a, b, k) {
        assert k > 0;
        assert a[1..][..k - 1] == a[..k][1..] && b[1..][..k - 1] == b[..k][1..];
        assert PartsAt(a[1..], b[1..], k - 1);
      }
    }
  }

  lemma {:induction false} TextIsTotal(a: string, b: string)
    ensures TextLess(a, b) || a == b || TextLess(b, a)
    decreases |a|
  {
    if a != [] && b != [] && a[0] == b[0] {
      TextIsTotal(a[1..], b[1..]);
      assert a[1..] == b[1..] ==> a == [a[0]] + a[1..] == [b[0]] + b[1..] == b;
    }
  }

  lemma {:induction false} TextIsTransitive(a: string, b: string, c: string)
    requires TextLess(a, b) && TextLess(b, c)
    ensures TextLess(a, c)
    decreases |a|
  {
    if a != [] && a[0] == b[0] == c[0] {
      TextIsTransitive(a[1..], b[1..], c[1..]);
    }
  }

  lemma {:induction false} TextIsIrreflexive(a: string)
    ensures !TextLess(a, a)
    decreases |a|
  {
    if a != [] {
      TextIsIrreflexive(a[1..]);
    }
  }

  /** A strict order in which incomparability is an equivalence: what a comparison function must be. */
  ghost predicate StrictWeak<T(!new)>(less: (T, T) -> bool) {
    && (forall x :: !less(x, x))
    && (forall x, y, z :: less(x, y) && less(y, z) ==> less(x, z))
    && (forall x, y, z :: less(x, z) ==> less(x, y) || less(y, z))
  }

  ghost predicate Sorted<T(!new)>(less: (T, T) -> bool, s: seq<T>) {
    forall i, j :: 0 <= i < j < |s| ==> !less(s[j], s[i])
  }

  /** The same elements as often. */
  ghost predicate Permuted<T>(s: seq<T>, t: seq<T>) { multiset(s) == multiset(t) }

  function Insert<T>(less: (T, T) -> bool, s: seq<T>, x: T): seq<T> {
    if s == [] || !less(x, s[|s| - 1]) then s + [x] else Insert(less, s[..|s| - 1], x) + [s[|s| - 1]]
  }

  function Sort<T>(less: (T, T) -> bool, s: seq<T>): seq<T> {
    if s == [] then [] else Insert(less, Sort(less, s[..|s| - 1]), s[|s| - 1])
  }

  lemma {:induction false} InsertPermutes<T>(less: (T, T) -> bool, s: seq<T>, x: T)
    ensures multiset(Insert(less, s, x)) == multiset(s) + multiset{x}
    decreases |s|
  {
    if s != [] && less(x, s[|s| - 1]) {
      InsertPermutes(less, s[..|s| - 1], x);
      assert s == s[..|s| - 1] + [s[|s| - 1]];
    }
  }

  lemma {:induction false} SortPermutes<T>(less: (T, T) -> bool, s: seq<T>)
    ensures Permuted(Sort(less, s), s) && |Sort(less, s)| == |s|
    decreases |s|
  {
    if s != [] {
      SortPermutes(less, s[..|s| - 1]);
      InsertPermutes(less, Sort(less, s[..|s| - 1]), s[|s| - 1]);
      assert s == s[..|s| - 1] + [s[|s| - 1]];
    }
    assert |multiset(Sort(less, s))| == |multiset(s)|;
  }

  lemma SameElements<T>(s: seq<T>, t: seq<T>)
    requires Permuted(s, t)
    ensures forall x :: x in s <==> x in t
  {
    assert forall x :: x in s <==> x in multiset(s);
    assert forall x :: x in t <==> x in multiset(t);
  }

  lemma Between<T(!new)>(less: (T, T) -> bool, x: T, y: T, z: T)
    requires StrictWeak(less)
    ensures less(x, z) ==> less(x, y) || less(y, z)
  {
  }

  lemma {:induction false} InsertSorts<T(!new)>(less: (T, T) -> bool, s: seq<T>, x: T)
    requires StrictWeak(less) && Sorted(less, s)
    ensures Sorted(less, Insert(less, s, x))
    decreases |s|
  {
    if s != [] && less(x, s[|s| - 1]) {
      var init, last := s[..|s| - 1], s[|s| - 1];
      InsertSorts(less, init, x);
      var r := Insert(less, init, x);
      InsertPermutes(less, init, x);
      forall i | 0 <= i < |r| ensures !less(last, r[i]) {
        assert r[i] in multiset(r);
        if r[i] != x {
          assert r[i] in init;
        }
      }
    } else if s != [] {
      var last := s[|s| - 1];
      forall i | 0 <= i < |s| ensures !less(x, s[i]) {
        Between(less, x, last, s[i]);
      }
    }
  }

  lemma {:induction false} SortSorts<T(!new)>(less: (T, T) -> bool, s: seq<T>)
    requires StrictWeak(less)
    ensures Sorted(less, Sort(less, s))
    decreases |s|
  {
    if s != [] {
      SortSorts(less, s[..|s| - 1]);
      InsertSorts(less, Sort(less, s[..|s| - 1]), s[|s| - 1]);
    }
  }

  /** Elements that the order tells apart can be sorted in one way only. */
  lemma {:induction false} SortedOneWay<T(!new)>(less: (T, T) -> bool, s: seq<T>, t: seq<T>)
    requires Permuted(s, t) && Sorted(less, s) && Sorted(less, t)
    requires forall x, y :: x in s && y in s && x != y ==> less(x, y) || less(y, x)
    ensures s == t
    decreases |s|
  {
    assert |multiset(s)| == |multiset(t)|;
    if s != [] {
      var n := |s|;
      LastAgree(less, s, t);
      PrefixPermuted(s, t);
      assert forall x :: x in s[..n - 1] ==> x in s;
      SortedOneWay(less, s[..n - 1], t[..n - 1]);
      assert s == s[..n - 1] + [s[n - 1]] && t == t[..n - 1] + [t[n - 1]];
    }
  }

  lemma PrefixPermuted<T>(s: seq<T>, t: seq<T>)
    requires Permuted(s, t) && |s| == |t| > 0 && s[|s| - 1] == t[|t| - 1]
    ensures Permuted(s[..|s| - 1], t[..|t| - 1])
  {
    var n := |s|;
    assert s == s[..n - 1] + [s[n - 1]] && t == t[..n - 1] + [t[n - 1]];
    assert multiset(s[..n - 1]) == multiset(s) - multiset{s[n - 1]};
    assert multiset(t[..n - 1]) == multiset(t) - multiset{t[n - 1]};
  }

  lemma LastAgree<T(!new)>(less: (T, T) -> bool, s: seq<T>, t: seq<T>)
    requires Permuted(s, t) && Sorted(less, s) && Sorted(less, t) && |s| == |t| > 0
    requires forall x, y :: x in s && y in s && x != y ==> less(x, y) || less(y, x)
    ensures s[|s| - 1] == t[|t| - 1]
  {
    SameElements(s, t);
    var a, b := s[|s| - 1], t[|t| - 1];
    assert a in s && b in t;
    NothingAboveTheLast(less, s, b);
    NothingAboveTheLast(less, t, a);
  }

  lemma NothingAboveTheLast<T(!new)>(less: (T, T) -> bool, s: seq<T>, x: T)
    requires Sorted(less, s) && x in s
    ensures x == s[|s| - 1] || !less(s[|s| - 1], x)
  {
  }

  ghost predicate DistinctBy<T, K>(key: T -> K, s: seq<T>) {
    forall i, j :: 0 <= i < j < |s| ==> key(s[i]) != key(s[j])
  }

  lemma {:induction false} InsertDistinct<T, K>(less: (T, T) -> bool, key: T -> K, s: seq<T>, x: T)
    requires DistinctBy(key, s) && forall k :: 0 <= k < |s| ==> key(s[k]) != key(x)
    ensures DistinctBy(key, Insert(less, s, x))
    decreases |s|
  {
    if s != [] && less(x, s[|s| - 1]) {
      var init := s[..|s| - 1];
      InsertDistinct(less, key, init, x);
      InsertPermutes(less, init, x);
      var r := Insert(less, init, x);
      forall k | 0 <= k < |r| ensures key(r[k]) != key(s[|s| - 1]) {
        assert r[k] in multiset(r);
        assert r[k] == x || r[k] in init;
      }
    }
  }

  lemma {:induction false} SortDistinct<T, K>(less: (T, T) -> bool, key: T -> K, s: seq<T>)
    requires DistinctBy(key, s)
    ensures DistinctBy(key, Sort(less, s))
    decreases |s|
  {
    if s != [] {
      var init, r := s[..|s| - 1], Sort(less, s[..|s| - 1]);
      SortDistinct(less, key, init);
      SortPermutes(less, init);
      SameElements(r, init);
      forall k | 0 <= k < |r| ensures key(r[k]) != key(s[|s| - 1]) {
        assert r[k] in multiset(r);
        assert r[k] in multiset(init);
        var i :| 0 <= i < |init| && init[i] == r[k];
        assert key(s[i]) != key(s[|s| - 1]);
      }
      InsertDistinct(less, key, r, s[|s| - 1]);
    }
  }

  lemma {:induction false} OnceEach<T, K>(key: T -> K, s: seq<T>, x: T)
    requires DistinctBy(key, s)
    ensures multiset(s)[x] == if x in s then 1 else 0
    decreases |s|
  {
    if s != [] {
      var init, last := s[..|s| - 1], s[|s| - 1];
      assert s == init + [last];
      OnceEach(key, init, x);
      forall k | 0 <= k < |init| ensures init[k] != last {
        assert key(s[k]) != key(s[|s| - 1]);
      }
    }
  }

  /** Two lists of the same elements, neither with a repeat, are rearrangements of each other. */
  lemma SameElementsPermuted<T, K>(key: T -> K, s: seq<T>, t: seq<T>)
    requires DistinctBy(key, s) && DistinctBy(key, t) && forall x :: x in s <==> x in t
    ensures Permuted(s, t)
  {
    forall x: T ensures multiset(s)[x] == multiset(t)[x] {
      OnceEach(key, s, x);
      OnceEach(key, t, x);
    }
  }
}
