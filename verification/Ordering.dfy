/** Orders and sorting shared by the ranking, traversal and reporting code. */
module Ordering {

  datatype Option<+T> = None | Some(value: T)

  datatype Result<+T, +E> = Ok(value: T) | Err(error: E)

  /** The strings agree before n, where `a` ends or has the smaller character. */
  predicate SmallerAt(a: string, b: string, n: nat) {
    n <= |a| && n < |b| && a[..n] == b[..n] && (n == |a| || a[n] < b[n])
  }

  /** Code-point order on strings, the order of Python's `sorted` and of the C collation. */
  predicate StringLess(a: string, b: string) {
    exists n :: 0 <= n <= |a| && SmallerAt(a, b, n)
  }

  lemma SmallerAtTransitive(a: string, b: string, c: string, m: nat, n: nat)
    requires SmallerAt(a, b, m) && SmallerAt(b, c, n)
    ensures SmallerAt(a, c, if m < n then m else n)
  {
    var k := if m < n then m else n;
    assert a[..k] == a[..m][..k] && b[..k] == b[..m][..k] == b[..n][..k] && c[..k] == c[..n][..k];
    if m < n { assert b[..n][m] == c[..n][m]; }
    if n < m { assert a[..m][n] == b[..m][n]; }
  }

  lemma {:induction false} StringLessConnected(a: string, b: string, n: nat)
    requires a != b && n <= |a| && n <= |b| && a[..n] == b[..n]
    ensures StringLess(a, b) || StringLess(b, a)
    decreases |a| - n
  {
    if n < |a| && n < |b| && a[n] == b[n] {
      assert a[..n + 1] == a[..n] + [a[n]] && b[..n + 1] == b[..n] + [b[n]];
      StringLessConnected(a, b, n + 1);
    } else {
      assert a == a[..|a|] && b == b[..|b|];
      assert SmallerAt(a, b, n) || SmallerAt(b, a, n);
    }
  }

  lemma StringLessTotal()
    ensures StrictTotalOrder(StringLess)
  {
    forall a, b, c ensures StringLess(a, b) && StringLess(b, c) ==> StringLess(a, c)
      ensures a != b ==> StringLess(a, b) || StringLess(b, a)
    {
      if StringLess(a, b) && StringLess(b, c) {
        var m :| 0 <= m <= |a| && SmallerAt(a, b, m);
        var n :| 0 <= n <= |b| && SmallerAt(b, c, n);
        SmallerAtTransitive(a, b, c, m, n);
      }
      if a != b {
        assert a[..0] == b[..0];
        StringLessConnected(a, b, 0);
      }
    }
  }

  ghost predicate StrictTotalOrder<T(!new)>(less: (T, T) -> bool) {
    && (forall a :: !less(a, a))
    && (forall a, b, c :: less(a, b) && less(b, c) ==> less(a, c))
    && (forall a, b :: a != b ==> less(a, b) || less(b, a))
  }

  /** Enough for a stable sort: `!less` is transitive, so ties form classes. */
  ghost predicate StrictWeakOrder<T(!new)>(less: (T, T) -> bool) {
    && (forall a, b :: less(a, b) ==> !less(b, a))
    && (forall a, b, c :: !less(b, a) && !less(c, b) ==> !less(c, a))
  }

  lemma TotalIsWeak<T(!new)>(less: (T, T) -> bool)
    requires StrictTotalOrder(less)
    ensures StrictWeakOrder(less)
  {
    forall a, b, c | !less(b, a) && !less(c, b) ensures !less(c, a) {
      assert a == b || less(a, b);
      assert b == c || less(b, c);
      assert a == c || less(a, c);
      assert less(a, c) && less(c, a) ==> less(a, a);
    }
    forall a, b | less(a, b) ensures !less(b, a) {
      assert less(b, a) ==> less(a, a);
    }
  }

  /** Comparing by a key keeps a weak order weak. */
  lemma WeakByKey<T(!new), K(!new)>(keyLess: (K, K) -> bool, key: T -> K, less: (T, T) -> bool)
    requires StrictWeakOrder(keyLess) && forall a, b :: less(a, b) == keyLess(key(a), key(b))
    ensures StrictWeakOrder(less)
  {}

  ghost predicate Ascending<T>(less: (T, T) -> bool, s: seq<T>) {
    forall i, j :: 0 <= i < j < |s| ==> !less(s[j], s[i])
  }

  ghost predicate StrictlyAscending<T>(less: (T, T) -> bool, s: seq<T>) {
    forall i, j :: 0 <= i < j < |s| ==> less(s[i], s[j])
  }

  ghost predicate Distinct<T>(s: seq<T>) {
    forall i, j :: 0 <= i < j < |s| ==> s[i] != s[j]
  }

  function Insert<T>(less: (T, T) -> bool, x: T, s: seq<T>): seq<T> {
    if s == [] then [x]
    else if less(s[0], x) then [s[0]] + Insert(less, x, s[1..])
    else [x] + s
  }

  /** A stable insertion sort: an element goes before the later elements it ties with. */
  function Sort<T>(less: (T, T) -> bool, s: seq<T>): seq<T> {
    if s == [] then [] else Insert(less, s[0], Sort(less, s[1..]))
  }

  lemma {:induction false} InsertPermutes<T>(less: (T, T) -> bool, x: T, s: seq<T>)
    ensures multiset(Insert(less, x, s)) == multiset{x} + multiset(s)
    ensures |Insert(less, x, s)| == |s| + 1
  {
    if s != [] {
      assert s == [s[0]] + s[1..];
      InsertPermutes(less, x, s[1..]);
    }
  }

  lemma {:induction false} SortPermutes<T>(less: (T, T) -> bool, s: seq<T>)
    ensures multiset(Sort(less, s)) == multiset(s)
    ensures |Sort(less, s)| == |s|
    ensures forall x :: x in Sort(less, s) <==> x in s
  {
    if s != [] {
      assert s == [s[0]] + s[1..];
      SortPermutes(less, s[1..]);
      InsertPermutes(less, s[0], Sort(less, s[1..]));
    }
    forall x ensures x in Sort(less, s) <==> x in s {
      assert x in Sort(less, s) <==> x in multiset(Sort(less, s));
    }
  }

  lemma {:induction false} InsertAscends<T(!new)>(less: (T, T) -> bool, x: T, s: seq<T>)
    requires StrictWeakOrder(less) && Ascending(less, s)
    ensures Ascending(less, Insert(less, x, s))
  {
    if s != [] && less(s[0], x) {
      InsertAscends(less, x, s[1..]);
      InsertPermutes(less, x, s[1..]);
      var rest := Insert(less, x, s[1..]);
      forall j | 0 <= j < |rest| ensures !less(rest[j], s[0]) {
        assert rest[j] in multiset(rest);
        if rest[j] != x {
          assert rest[j] in multiset(s[1..]);
        }
      }
    } else if s != [] {
      forall j | 0 <= j < |s| ensures !less(s[j], x) {
        assert !less(s[0], x);
        if j > 0 { assert !less(s[j], s[0]); }
      }
    }
  }

  lemma {:induction false} SortAscends<T(!new)>(less: (T, T) -> bool, s: seq<T>)
    requires StrictWeakOrder(less)
    ensures Ascending(less, Sort(less, s))
  {
    if s != [] {
      SortAscends(less, s[1..]);
      InsertAscends(less, s[0], Sort(less, s[1..]));
    }
  }

  lemma DistinctCountsOnce<T>(s: seq<T>, k: nat)
    requires Distinct(s) && k < |s|
    ensures multiset(s)[s[k]] == 1
  {
    assert s == s[..k] + [s[k]] + s[k + 1..];
    assert s[k] !in s[..k] && s[k] !in s[k + 1..];
    assert multiset(s[..k])[s[k]] == 0 && multiset(s[k + 1..])[s[k]] == 0;
  }

  lemma RepeatedCountsTwice<T>(s: seq<T>, i: nat, j: nat)
    requires i < j < |s| && s[i] == s[j]
    ensures multiset(s)[s[i]] >= 2
  {
    assert s == (s[..i] + [s[i]]) + (s[i + 1..j] + [s[j]] + s[j + 1..]);
    assert multiset(s[..i] + [s[i]])[s[i]] >= 1;
    assert multiset(s[i + 1..j] + [s[j]] + s[j + 1..])[s[i]] >= 1;
  }

  lemma PermutedDistinct<T>(s: seq<T>, t: seq<T>)
    requires multiset(s) == multiset(t) && Distinct(s)
    ensures Distinct(t)
  {
    forall i, j | 0 <= i < j < |t| ensures t[i] != t[j] {
      assert t[i] in multiset(s);
      var k :| 0 <= k < |s| && s[k] == t[i];
      DistinctCountsOnce(s, k);
      if t[i] == t[j] { RepeatedCountsTwice(t, i, j); }
    }
  }

  lemma SameFirst<T(!new)>(less: (T, T) -> bool, s: seq<T>, t: seq<T>)
    requires StrictTotalOrder(less) && StrictlyAscending(less, s) && StrictlyAscending(less, t)
    requires s != [] && t != [] && s[0] in t && t[0] in s
    ensures s[0] == t[0]
  {
    var a, b := s[0], t[0];
    assert a == b || less(b, a);
    assert a == b || less(a, b);
    assert a == b || less(a, a);
  }

  lemma InTail<T(!new)>(less: (T, T) -> bool, s: seq<T>, x: T)
    requires StrictTotalOrder(less) && StrictlyAscending(less, s) && s != []
    ensures x in s[1..] <==> x in s && x != s[0]
  {
    assert s == [s[0]] + s[1..];
    if x in s[1..] {
      var i :| 0 <= i < |s[1..]| && s[1..][i] == x;
      assert less(s[0], s[i + 1]);
    }
  }

  /** Two strictly ascending listings of the same elements are the same listing. */
  lemma {:induction false} AscendingListingUnique<T(!new)>(less: (T, T) -> bool, s: seq<T>, t: seq<T>)
    requires StrictTotalOrder(less)
    requires StrictlyAscending(less, s) && StrictlyAscending(less, t)
    requires forall x :: x in s <==> x in t
    ensures s == t
    decreases |s|
  {
    assert |t| > 0 ==> t[0] in s;
    if s != [] {
      assert s[0] in t;
      SameFirst(less, s, t);
      forall x ensures x in s[1..] <==> x in t[1..] {
        InTail(less, s, x);
        InTail(less, t, x);
      }
      AscendingListingUnique(less, s[1..], t[1..]);
      assert s == [s[0]] + s[1..] && t == [t[0]] + t[1..];
    }
  }

  /** A finite non-empty set has a least element. */
  lemma {:induction false} LeastExists<T(!new)>(less: (T, T) -> bool, s: set<T>) returns (least: T)
    requires StrictTotalOrder(less) && s != {}
    ensures least in s && forall x :: x in s && x != least ==> less(least, x)
  {
    var x :| x in s;
    if s == {x} {
      least := x;
    } else {
      assert s == {x} + (s - {x});
      var rest := LeastExists(less, s - {x});
      least := if less(x, rest) then x else rest;
    }
  }

  predicate Least(keys: set<string>, k: string) {
    k in keys && forall x :: x in keys && x != k ==> StringLess(k, x)
  }

  /** `sorted` on a set of strings: its strictly ascending listing. */
  function SortedStrings(keys: set<string>): (r: seq<string>)
    ensures forall k :: k in r <==> k in keys
    ensures StrictlyAscending(StringLess, r)
  {
    if keys == {} then []
    else
      StringLessTotal();
      assert exists k :: Least(keys, k) by { var least := LeastExists(StringLess, keys); assert Least(keys, least); }
      var k :| Least(keys, k);
      [k] + SortedStrings(keys - {k})
  }

  lemma {:induction false} SetListing<T>(s: set<T>) returns (listing: seq<T>)
    ensures Distinct(listing) && forall x :: x in listing <==> x in s
    ensures |listing| == |s|
  {
    listing := [];
    if s != {} {
      var x :| x in s;
      var rest := SetListing(s - {x});
      listing := rest + [x];
    }
  }

  ghost function Span(lo: nat, hi: nat): (r: set<nat>)
    ensures forall x :: x in r <==> lo <= x < hi
    ensures |r| == if lo < hi then hi - lo else 0
    decreases hi
  {
    if lo < hi then Span(lo, hi - 1) + {hi - 1} else {}
  }

  /** Distinct naturals between two bounds are no more than the bounds leave room for. */
  lemma DistinctBounded(s: seq<nat>, lo: nat, hi: nat)
    requires Distinct(s) && forall i :: 0 <= i < |s| ==> lo <= s[i] < hi
    ensures |s| <= if lo < hi then hi - lo else 0
  {
    DistinctCardinality(s);
    SubsetCardinality((set x | x in s), Span(lo, hi));
  }

  /** As many distinct naturals as the bounds leave room for are all of them. */
  lemma DistinctCovers(s: seq<nat>, lo: nat, hi: nat, x: nat)
    requires Distinct(s) && forall i :: 0 <= i < |s| ==> lo <= s[i] < hi
    requires lo <= x < hi && |s| == hi - lo
    ensures x in s
  {
    DistinctCardinality(s);
    var found := set y | y in s;
    assert found <= Span(lo, hi);
    assert |Span(lo, hi) - found| == |Span(lo, hi)| - |found|;
    assert x in Span(lo, hi) && Span(lo, hi) - found == {};
  }

  lemma {:induction false} DistinctCardinality<T>(s: seq<T>)
    requires Distinct(s)
    ensures |set x | x in s| == |s|
  {
    if s != [] {
      var last := |s| - 1;
      DistinctCardinality(s[..last]);
      assert s == s[..last] + [s[last]];
      assert (set x | x in s) == (set x | x in s[..last]) + {s[last]};
      assert s[last] !in s[..last];
    }
  }

  lemma {:induction false} SubsetCardinality<T>(a: set<T>, b: set<T>)
    requires a <= b
    ensures |a| <= |b|
  {
    assert b == a + (b - a);
    assert |b| == |a| + |b - a|;
  }

  /** An injection into a finite set bounds the number of its arguments. */
  lemma {:induction false} InjectionBound<A, B>(s: set<A>, f: A --> B, t: set<B>)
    requires forall x :: x in s ==> f.requires(x) && f(x) in t
    requires forall x, y :: x in s && y in s && f(x) == f(y) ==> x == y
    ensures |s| <= |t|
  {
    if s != {} {
      var x :| x in s;
      assert forall y :: y in s && f(y) == f(x) ==> y == x;
      InjectionBound(s - {x}, f, t - {f(x)});
    }
  }

  // ----- Loops as folds -----

  function Fold<S>(step: (S, nat) -> S, start: S, n: nat): S {
    if n == 0 then start else step(Fold(step, start, n - 1), n - 1)
  }

  /** What every step keeps holds after any number of steps. */
  lemma {:induction false} FoldKeeps<S(!new)>(step: (S, nat) -> S, start: S, inv: (S, nat) -> bool, n: nat)
    requires inv(start, 0)
    requires forall s: S, i: nat :: i < n && inv(s, i) ==> inv(step(s, i), i + 1)
    ensures inv(Fold(step, start, n), n)
  {
    if n > 0 { FoldKeeps(step, start, inv, n - 1); }
  }
}
