/**
 * The two list operations the application leans on everywhere: `Array.prototype.filter`
 * (order-preserving selection) and a stable ascending sort by an integer key (the Data
 * Store's `.order(column, { ascending: true })` and `Array.prototype.sort` with a
 * numeric comparator). Each is defined once here, with its properties proved once.
 */
module Seqs {

  /** `s.filter(p)`: the elements satisfying `p`, in their original order. */
  function Filter<T(!new)>(p: T -> bool, s: seq<T>): (r: seq<T>)
    ensures |r| <= |s|
    ensures forall i :: 0 <= i < |r| ==> p(r[i])
    ensures forall x :: x in r <==> x in s && p(x)
    ensures forall x :: multiset(r)[x] == if p(x) then multiset(s)[x] else 0
    decreases |s|
  {
    if s == [] then []
    else
      var rest := Filter(p, s[1..]);
      assert s == [s[0]] + s[1..];
      if p(s[0]) then [s[0]] + rest else rest
  }

  /** `r` can be obtained from `s` by deleting elements: same relative order. */
  ghost predicate IsSubseq<T>(r: seq<T>, s: seq<T>)
    decreases |s|
  {
    if r == [] then true
    else if s == [] then false
    else if r[0] == s[0] then IsSubseq(r[1..], s[1..])
    else IsSubseq(r, s[1..])
  }

  lemma {:induction false} FilterIsSubseq<T(!new)>(p: T -> bool, s: seq<T>)
    ensures IsSubseq(Filter(p, s), s)
    decreases |s|
  {
    if s != [] {
      FilterIsSubseq(p, s[1..]);
      var rest := Filter(p, s[1..]);
      if !p(s[0]) {
        SubseqSkip(rest, s);
      }
    }
  }

  /** Dropping the head of `s` keeps every subsequence of its tail a subsequence. */
  lemma {:induction false} SubseqSkip<T>(r: seq<T>, s: seq<T>)
    requires s != [] && IsSubseq(r, s[1..])
    ensures IsSubseq(r, s)
    decreases |r| + |s|
  {
    if r != [] && r[0] == s[0] {
      // r[0] == s[0]: match the head here and keep r[1..] inside s[1..]
      SubseqDropHead(r, s[1..]);
    }
  }

  lemma {:induction false} SubseqDropHead<T>(r: seq<T>, s: seq<T>)
    requires r != [] && IsSubseq(r, s)
    ensures IsSubseq(r[1..], s)
    decreases |r| + |s|
  {
    assert s != [];
    if r[0] == s[0] {
      if r[1..] != [] {
        SubseqSkip(r[1..], s);
      }
    } else {
      SubseqDropHead(r, s[1..]);
      if r[1..] != [] {
        SubseqSkip(r[1..], s);
      }
    }
  }

  lemma {:induction false} FilterConcat<T(!new)>(p: T -> bool, a: seq<T>, b: seq<T>)
    ensures Filter(p, a + b) == Filter(p, a) + Filter(p, b)
    decreases |a|
  {
    if a == [] {
      assert a + b == b;
    } else {
      var ab := a + b;
      assert ab[0] == a[0] && ab[1..] == a[1..] + b;
      FilterConcat(p, a[1..], b);
      if p(a[0]) {
        calc {
          Filter(p, ab);
          [a[0]] + Filter(p, a[1..] + b);
          [a[0]] + (Filter(p, a[1..]) + Filter(p, b));
          ([a[0]] + Filter(p, a[1..])) + Filter(p, b);
        }
      }
    }
  }

  /** Filtering with a predicate every element meets returns the list itself. */
  lemma {:induction false} FilterKeepsAll<T(!new)>(p: T -> bool, s: seq<T>)
    requires forall x :: x in s ==> p(x)
    ensures Filter(p, s) == s
    decreases |s|
  {
    if s != [] {
      FilterKeepsAll(p, s[1..]);
    }
  }

  /** Filtering with a predicate no element meets returns the empty list. */
  lemma {:induction false} FilterDropsAll<T(!new)>(p: T -> bool, s: seq<T>)
    requires forall x :: x in s ==> !p(x)
    ensures Filter(p, s) == []
  {
  }

  /** Two predicates that agree on every value filter alike. */
  lemma {:induction false} FilterExt<T(!new)>(p: T -> bool, q: T -> bool, s: seq<T>)
    requires forall x :: p(x) == q(x)
    ensures Filter(p, s) == Filter(q, s)
    decreases |s|
  {
    if s != [] {
      FilterExt(p, q, s[1..]);
    }
  }

  /** Filtering twice is filtering once by the conjunction. */
  lemma {:induction false} FilterFilter<T(!new)>(p: T -> bool, q: T -> bool, pq: T -> bool, s: seq<T>)
    requires forall x :: pq(x) == (q(x) && p(x))
    ensures Filter(p, Filter(q, s)) == Filter(pq, s)
    decreases |s|
  {
    if s != [] {
      FilterFilter(p, q, pq, s[1..]);
    }
  }

  /** A predicate and its negation split a list into two parts that together hold it all. */
  lemma FilterPartition<T(!new)>(p: T -> bool, q: T -> bool, s: seq<T>)
    requires forall x :: q(x) == !p(x)
    ensures multiset(Filter(p, s)) + multiset(Filter(q, s)) == multiset(s)
    ensures |Filter(p, s)| + |Filter(q, s)| == |s|
  {
    var a, b := Filter(p, s), Filter(q, s);
    assert multiset(a) + multiset(b) == multiset(s) by {
      forall x ensures (multiset(a) + multiset(b))[x] == multiset(s)[x] {
      }
    }
    assert |multiset(a) + multiset(b)| == |multiset(s)|;
  }

  /** Every key is at most every later key. */
  predicate SortedBy<T>(key: T -> int, s: seq<T>) {
    forall i, j :: 0 <= i < j < |s| ==> key(s[i]) <= key(s[j])
  }

  /** Places `x` before the first element whose key is not smaller (so ties keep `x` first). */
  function Insert<T>(key: T -> int, x: T, s: seq<T>): (r: seq<T>)
    requires SortedBy(key, s)
    ensures |r| == |s| + 1
    ensures multiset(r) == multiset(s) + multiset{x}
    ensures SortedBy(key, r)
    decreases |s|
  {
    if s == [] || key(x) <= key(s[0]) then [x] + s
    else
      var h, t := s[0], s[1..];
      assert s == [h] + t;
      var rest := Insert(key, x, t);
      InsertStep(key, x, h, t, rest);
      [h] + rest
  }

  /** The step of `Insert` past a head `h` with a smaller key than `x`. */
  lemma InsertStep<T>(key: T -> int, x: T, h: T, t: seq<T>, rest: seq<T>)
    requires SortedBy(key, [h] + t) && key(h) < key(x)
    requires SortedBy(key, rest) && multiset(rest) == multiset(t) + multiset{x}
    ensures SortedBy(key, [h] + rest)
    ensures multiset([h] + rest) == multiset([h] + t) + multiset{x}
  {
    forall y | y in t + [x] ensures key(h) <= key(y) {
      if y in t {
        var j :| 0 <= j < |t| && t[j] == y;
        assert ([h] + t)[0] == h && ([h] + t)[j + 1] == y;
      }
    }
    ConsSorted(key, h, rest, t + [x]);
  }

  /** A head no greater than any element of a sorted tail (given as a permutation of `from`) keeps it sorted. */
  lemma ConsSorted<T>(key: T -> int, h: T, tail: seq<T>, from: seq<T>)
    requires SortedBy(key, tail)
    requires multiset(tail) == multiset(from)
    requires forall y :: y in from ==> key(h) <= key(y)
    ensures SortedBy(key, [h] + tail)
  {
    var r := [h] + tail;
    forall i, j | 0 <= i < j < |r| ensures key(r[i]) <= key(r[j]) {
      assert r[j] == tail[j - 1];
      assert tail[j - 1] in multiset(from);
      if i > 0 {
        assert r[i] == tail[i - 1];
      }
    }
  }

  /** Stable ascending sort by `key`. */
  function SortBy<T>(key: T -> int, s: seq<T>): (r: seq<T>)
    ensures |r| == |s|
    ensures multiset(r) == multiset(s)
    ensures SortedBy(key, r)
    decreases |s|
  {
    if s == [] then []
    else
      assert s == [s[0]] + s[1..];
      Insert(key, s[0], SortBy(key, s[1..]))
  }

  /** The elements whose key is `k`. */
  function KeyIs<T>(key: T -> int, k: int): T -> bool {
    (x: T) => key(x) == k
  }

  /** Inserting `x` into a sorted list puts it ahead of every element with the same key. */
  lemma {:induction false} InsertTies<T(!new)>(key: T -> int, x: T, s: seq<T>, k: int)
    requires SortedBy(key, s)
    ensures Filter(KeyIs(key, k), Insert(key, x, s))
              == if key(x) == k then [x] + Filter(KeyIs(key, k), s) else Filter(KeyIs(key, k), s)
    decreases |s|
  {
    if s != [] && key(s[0]) < key(x) {
      var t := s[1..];
      assert SortedBy(key, t);
      InsertTies(key, x, t, k);
      assert Insert(key, x, s) == [s[0]] + Insert(key, x, t);
      assert ([s[0]] + Insert(key, x, t))[1..] == Insert(key, x, t);
    }
  }

  /** Stability: the elements sharing any one key come out in their input order. */
  lemma {:induction false} SortByStable<T(!new)>(key: T -> int, s: seq<T>, k: int)
    ensures Filter(KeyIs(key, k), SortBy(key, s)) == Filter(KeyIs(key, k), s)
    decreases |s|
  {
    if s != [] {
      SortByStable(key, s[1..], k);
      InsertTies(key, s[0], SortBy(key, s[1..]), k);
    }
  }

  /** `s.map(f)`. */
  function Map<T, U>(f: T -> U, s: seq<T>): (r: seq<U>)
    ensures |r| == |s| && forall i :: 0 <= i < |s| ==> r[i] == f(s[i])
  {
    seq(|s|, i requires 0 <= i < |s| => f(s[i]))
  }

  /** Taking out the element at `k` takes it out of the multiset. */
  lemma MultisetRemove<T>(s: seq<T>, k: int)
    requires 0 <= k < |s|
    ensures multiset(s) == multiset(s[..k] + s[k + 1..]) + multiset{s[k]}
  {
    assert s == s[..k] + [s[k]] + s[k + 1..];
  }

  /** Two multisets that differ from a third by the same element are equal. */
  lemma MultisetCancel<T>(m: multiset<T>, n: multiset<T>, x: T)
    requires m + multiset{x} == n + multiset{x}
    ensures m == n
  {
    forall y ensures m[y] == n[y] {
      assert (m + multiset{x})[y] == (n + multiset{x})[y];
    }
  }

  /** Mapping two permutations of one another gives two permutations of one another. */
  lemma {:induction false} MapPermutation<T, U>(f: T -> U, a: seq<T>, b: seq<T>)
    requires multiset(a) == multiset(b)
    ensures multiset(Map(f, a)) == multiset(Map(f, b))
    decreases |a|
  {
    if a == [] {
      assert |multiset(b)| == 0;
    } else {
      var x := a[0];
      assert x in multiset(b);
      var k :| 0 <= k < |b| && b[k] == x;
      var rest := b[..k] + b[k + 1..];
      MultisetRemove(b, k);
      MapRemove(f, b, k, rest);
      MultisetRemove(a, 0);
      MapRemove(f, a, 0, a[1..]);
      MultisetCancel(multiset(a[1..]), multiset(rest), x);
      MapPermutation(f, a[1..], rest);
    }
  }

  /** Mapping a list with one element taken out maps the rest. */
  lemma MapRemove<T, U>(f: T -> U, s: seq<T>, k: int, rest: seq<T>)
    requires 0 <= k < |s| && rest == s[..k] + s[k + 1..]
    ensures multiset(Map(f, s)) == multiset(Map(f, rest)) + multiset{f(s[k])}
  {
    var m := Map(f, s);
    MultisetRemove(m, k);
    assert m[..k] + m[k + 1..] == Map(f, rest);
  }

  /** A sorted result holds exactly the elements of its input. */
  lemma SortByMembers<T(!new)>(key: T -> int, s: seq<T>)
    ensures forall x :: x in SortBy(key, s) <==> x in s
  {
    var r := SortBy(key, s);
    forall x ensures x in r <==> x in s {
      assert x in r <==> x in multiset(r);
      assert x in s <==> x in multiset(s);
    }
  }
}
