/**
 * Sequence operations the pages use through JavaScript's array library:
 * `filter`, `slice(0, n)`, `map` and the stable `sort` with a numeric key,
 * together with the facts about them that the page-level lemmas rely on.
 */
module Seqs {

  /** `a` is obtained from `b` by deleting elements, the rest keeping their order. */
  predicate IsSubsequence<T(==)>(a: seq<T>, b: seq<T>)
  {
    if a == [] then true
    else if b == [] then false
    else if a[0] == b[0] then IsSubsequence(a[1..], b[1..])
    else IsSubsequence(a, b[1..])
  }

  /** `s.filter(f)`: the elements of `s` that satisfy `f`, in their order in `s`. */
  function Filter<T>(s: seq<T>, f: T -> bool): (r: seq<T>)
    ensures |r| <= |s|
    ensures forall i | 0 <= i < |r| :: f(r[i])
    ensures forall i | 0 <= i < |r| :: r[i] in s
    ensures forall i | 0 <= i < |s| && f(s[i]) :: s[i] in r
  {
    if s == [] then []
    else if f(s[0]) then [s[0]] + Filter(s[1..], f)
    else Filter(s[1..], f)
  }

  /** `filter` distributes over concatenation. */
  lemma {:induction false} FilterAppend<T>(a: seq<T>, b: seq<T>, f: T -> bool)
    ensures Filter(a + b, f) == Filter(a, f) + Filter(b, f)
  {
    if a != [] {
      FilterAppend(a[1..], b, f);
      assert (a + b)[0] == a[0];
      assert (a + b)[1..] == a[1..] + b;
      assert Filter(a + b, f) == (if f(a[0]) then [a[0]] else []) + Filter(a[1..] + b, f);
      assert Filter(a, f) == (if f(a[0]) then [a[0]] else []) + Filter(a[1..], f);
    } else {
      assert a + b == b;
    }
  }

  /** The conjunction of two tests, as one test. */
  function Both<T>(f: T -> bool, g: T -> bool): T -> bool
  {
    x => f(x) && g(x)
  }

  /** `s.slice(0, n)`. */
  function Take<T>(s: seq<T>, n: nat): (r: seq<T>)
    ensures |r| == if n < |s| then n else |s|
    ensures r == s[..|r|]
  {
    if n < |s| then s[..n] else s
  }

  /** `s.map(f)`. */
  function MapSeq<T, U>(s: seq<T>, f: T -> U): (r: seq<U>)
    ensures |r| == |s|
    ensures forall i | 0 <= i < |s| :: r[i] == f(s[i])
  {
    if s == [] then [] else [f(s[0])] + MapSeq(s[1..], f)
  }

  lemma {:induction false} SubsequenceDropHead<T>(a: seq<T>, b: seq<T>)
    requires a != [] && IsSubsequence(a, b)
    ensures IsSubsequence(a[1..], b)
    decreases |b|, 1
  {
    if a[0] == b[0] {
      SubsequenceExtend(a[1..], b);
    } else {
      SubsequenceDropHead(a, b[1..]);
      SubsequenceExtend(a[1..], b);
    }
  }

  lemma {:induction false} SubsequenceExtend<T>(a: seq<T>, b: seq<T>)
    requires b != [] && IsSubsequence(a, b[1..])
    ensures IsSubsequence(a, b)
    decreases |b|, 0
  {
    if a != [] && a[0] == b[0] {
      SubsequenceDropHead(a, b[1..]);
    }
  }

  lemma {:induction false} SubsequenceTransitive<T>(a: seq<T>, b: seq<T>, c: seq<T>)
    requires IsSubsequence(a, b) && IsSubsequence(b, c)
    ensures IsSubsequence(a, c)
    decreases |c|
  {
    if a == [] {
    } else if b[0] == c[0] {
      if a[0] == b[0] {
        SubsequenceTransitive(a[1..], b[1..], c[1..]);
      } else {
        SubsequenceTransitive(a, b[1..], c[1..]);
      }
    } else {
      SubsequenceTransitive(a, b, c[1..]);
      if a[0] == c[0] {
        SubsequenceDropHead(a, c[1..]);
      }
    }
  }

  /** Every prefix of a sequence is a subsequence of it. */
  lemma {:induction false} PrefixIsSubsequence<T>(s: seq<T>, n: nat)
    requires n <= |s|
    ensures IsSubsequence(s[..n], s)
  {
    if n > 0 {
      PrefixIsSubsequence(s[1..], n - 1);
      assert s[..n][1..] == s[1..][..n - 1];
    }
  }

  /** `filter` keeps the order of what it keeps. */
  lemma {:induction false} FilterIsSubsequence<T>(s: seq<T>, f: T -> bool)
    ensures IsSubsequence(Filter(s, f), s)
  {
    if s != [] {
      FilterIsSubsequence(s[1..], f);
      var r := Filter(s, f);
      if !f(s[0]) && r != [] {
        assert f(r[0]);
      }
    }
  }

  /** What `filter` keeps is exactly what is in `s` and passes the test. */
  lemma FilterMembership<T>(s: seq<T>, f: T -> bool, x: T)
    ensures x in Filter(s, f) <==> x in s && f(x)
  {
    var r := Filter(s, f);
    if x in r {
      var i :| 0 <= i < |r| && r[i] == x;
      assert f(r[i]);
    }
    if x in s && f(x) {
      var i :| 0 <= i < |s| && s[i] == x;
      assert s[i] in r;
    }
  }

  /** Filtering twice is filtering once by both tests. */
  lemma {:induction false} FilterFilter<T>(s: seq<T>, f: T -> bool, g: T -> bool)
    ensures Filter(Filter(s, f), g) == Filter(s, Both(f, g))
  {
    if s != [] {
      FilterFilter(s[1..], f, g);
    }
  }

  /** The order in which two filters are applied does not matter. */
  lemma FilterCommutes<T>(s: seq<T>, f: T -> bool, g: T -> bool)
    ensures Filter(Filter(s, f), g) == Filter(Filter(s, g), f)
  {
    FilterFilter(s, f, g);
    FilterFilter(s, g, f);
    FilterSameTest(s, Both(f, g), Both(g, f));
  }

  /** Two tests that agree everywhere filter alike. */
  lemma {:induction false} FilterSameTest<T>(s: seq<T>, f: T -> bool, g: T -> bool)
    requires forall x :: f(x) == g(x)
    ensures Filter(s, f) == Filter(s, g)
  {
    if s != [] {
      FilterSameTest(s[1..], f, g);
    }
  }

  /** A test that every element passes keeps the whole sequence. */
  lemma {:induction false} FilterKeepsAll<T>(s: seq<T>, f: T -> bool)
    requires forall i | 0 <= i < |s| :: f(s[i])
    ensures Filter(s, f) == s
  {
    if s != [] {
      FilterKeepsAll(s[1..], f);
    }
  }

  // ---------------------------------------------------------------------------
  // The stable sort by a numeric key, largest key first
  // (`[...s].sort((a, b) => key(b) - key(a))`).
  // ---------------------------------------------------------------------------

  ghost predicate SortedDesc<T>(s: seq<T>, key: T -> int)
  {
    forall i, j | 0 <= i < j < |s| :: key(s[i]) >= key(s[j])
  }

  /** The test "has key `k`", used to state stability. */
  function HasKey<T>(key: T -> int, k: int): T -> bool
  {
    x => key(x) == k
  }

  /** Puts `x` before the first element whose key is not larger than its own. */
  function InsertDesc<T>(x: T, s: seq<T>, key: T -> int): (r: seq<T>)
    ensures |r| == |s| + 1
    ensures multiset(r) == multiset(s) + multiset{x}
  {
    if s == [] || key(s[0]) <= key(x) then [x] + s
    else
      assert s == [s[0]] + s[1..];
      [s[0]] + InsertDesc(x, s[1..], key)
  }

  /** Insertion sort from the back: an element that comes first in `s` ends up first among equal keys. */
  function SortDesc<T>(s: seq<T>, key: T -> int): (r: seq<T>)
    ensures |r| == |s|
    ensures multiset(r) == multiset(s)
  {
    if s == [] then []
    else
      assert s == [s[0]] + s[1..];
      InsertDesc(s[0], SortDesc(s[1..], key), key)
  }

  ghost predicate KeysAtMost<T>(s: seq<T>, key: T -> int, bound: int)
  {
    forall i | 0 <= i < |s| :: key(s[i]) <= bound
  }

  lemma {:induction false} InsertDescBounded<T>(x: T, s: seq<T>, key: T -> int, bound: int)
    requires KeysAtMost(s, key, bound) && key(x) <= bound
    ensures KeysAtMost(InsertDesc(x, s, key), key, bound)
  {
    if s != [] && key(s[0]) > key(x) {
      InsertDescBounded(x, s[1..], key, bound);
    }
  }

  lemma {:induction false} InsertDescSorted<T>(x: T, s: seq<T>, key: T -> int)
    requires SortedDesc(s, key)
    ensures SortedDesc(InsertDesc(x, s, key), key)
  {
    if s != [] && key(s[0]) > key(x) {
      var rest := InsertDesc(x, s[1..], key);
      InsertDescSorted(x, s[1..], key);
      InsertDescBounded(x, s[1..], key, key(s[0]));
      var r := [s[0]] + rest;
      assert r == InsertDesc(x, s, key);
      forall i, j | 0 <= i < j < |r| ensures key(r[i]) >= key(r[j]) {
        assert r[j] == rest[j - 1];
        if i > 0 {
          assert r[i] == rest[i - 1];
        }
      }
    }
  }

  /** The sorted sequence is ordered by non-increasing key. */
  lemma {:induction false} SortDescSorted<T>(s: seq<T>, key: T -> int)
    ensures SortedDesc(SortDesc(s, key), key)
  {
    if s != [] {
      SortDescSorted(s[1..], key);
      InsertDescSorted(s[0], SortDesc(s[1..], key), key);
    }
  }

  lemma {:induction false} InsertDescStable<T>(x: T, s: seq<T>, key: T -> int, k: int)
    ensures Filter(InsertDesc(x, s, key), HasKey(key, k))
         == if key(x) == k then [x] + Filter(s, HasKey(key, k)) else Filter(s, HasKey(key, k))
  {
    if s != [] && key(s[0]) > key(x) {
      InsertDescStable(x, s[1..], key, k);
      assert InsertDesc(x, s, key) == [s[0]] + InsertDesc(x, s[1..], key);
      assert ([s[0]] + InsertDesc(x, s[1..], key))[1..] == InsertDesc(x, s[1..], key);
    }
  }

  /**
   * Stability: for every key, the elements carrying it appear in the sorted
   * sequence in the same order as in the input.
   */
  lemma {:induction false} SortDescStable<T>(s: seq<T>, key: T -> int, k: int)
    ensures Filter(SortDesc(s, key), HasKey(key, k)) == Filter(s, HasKey(key, k))
  {
    if s != [] {
      SortDescStable(s[1..], key, k);
      InsertDescStable(s[0], SortDesc(s[1..], key), key, k);
    }
  }

  lemma {:induction false} InsertDescMapped<T, U>(x: T, s: seq<T>, key: T -> int, f: T -> U)
    ensures multiset(MapSeq(InsertDesc(x, s, key), f)) == multiset(MapSeq(s, f)) + multiset{f(x)}
  {
    if s != [] && key(s[0]) > key(x) {
      InsertDescMapped(x, s[1..], key, f);
      assert InsertDesc(x, s, key) == [s[0]] + InsertDesc(x, s[1..], key);
      assert MapSeq(InsertDesc(x, s, key), f) == [f(s[0])] + MapSeq(InsertDesc(x, s[1..], key), f);
      assert MapSeq(s, f) == [f(s[0])] + MapSeq(s[1..], f);
    } else {
      assert MapSeq([x] + s, f) == [f(x)] + MapSeq(s, f);
    }
  }

  /** Sorting permutes any projection of the elements too (used for the multiset of ids). */
  lemma {:induction false} SortDescMapped<T, U>(s: seq<T>, key: T -> int, f: T -> U)
    ensures multiset(MapSeq(SortDesc(s, key), f)) == multiset(MapSeq(s, f))
  {
    if s != [] {
      SortDescMapped(s[1..], key, f);
      InsertDescMapped(s[0], SortDesc(s[1..], key), key, f);
      assert MapSeq(s, f) == [f(s[0])] + MapSeq(s[1..], f);
    }
  }
}
