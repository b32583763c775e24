/** The two array operations the script builds its selections from:
    `Array.prototype.filter` and the stable `Array.prototype.sort` with a
    numeric comparator `(a, b) => key(a) - key(b)`. */
module Sequences {

  /** `a` is an order-preserving subsequence of `b`: `b[0]` is either used
      for `a[0]` or skipped. */
  predicate IsSubsequence<T(==)>(a: seq<T>, b: seq<T>)
    decreases |b|
  {
    a == [] || (b != [] && ((a[0] == b[0] && IsSubsequence(a[1..], b[1..])) || IsSubsequence(a, b[1..])))
  }

  /** `s.filter(p)`: the elements of `s` that satisfy `p`, in input order. */
  function Filter<T>(s: seq<T>, p: T -> bool): (r: seq<T>)
    ensures |r| <= |s|
    ensures forall i :: 0 <= i < |r| ==> p(r[i])
  {
    if s == [] then []
    else if p(s[0]) then [s[0]] + Filter(s[1..], p)
    else Filter(s[1..], p)
  }

  /** What `filter` keeps is a subsequence of its input. */
  lemma {:induction false} FilterIsSubsequence<T>(s: seq<T>, p: T -> bool)
    ensures IsSubsequence(Filter(s, p), s)
  {
    if s != [] {
      FilterIsSubsequence(s[1..], p);
      if p(s[0]) {
        assert ([s[0]] + Filter(s[1..], p))[1..] == Filter(s[1..], p);
      } else {
        var r := Filter(s, p);
        if r != [] {
          assert IsSubsequence(r, s[1..]);
        }
      }
    }
  }

  /** `filter` drops nothing that satisfies `p`, and keeps every copy of it. */
  lemma {:induction false} FilterKeepsMatches<T>(s: seq<T>, p: T -> bool, x: T)
    requires p(x)
    ensures multiset(Filter(s, p))[x] == multiset(s)[x]
  {
    if s != [] {
      FilterKeepsMatches(s[1..], p, x);
      assert s == [s[0]] + s[1..];
    }
  }

  /** Everything `filter` keeps comes from its input. */
  lemma {:induction false} FilterFromInput<T>(s: seq<T>, p: T -> bool)
    ensures multiset(Filter(s, p)) <= multiset(s)
  {
    if s != [] {
      FilterFromInput(s[1..], p);
      assert s == [s[0]] + s[1..];
    }
  }

  /** Filtering a second time with the same predicate changes nothing. */
  lemma {:induction false} FilterIdempotent<T>(s: seq<T>, p: T -> bool)
    ensures Filter(Filter(s, p), p) == Filter(s, p)
  {
    if s != [] {
      FilterIdempotent(s[1..], p);
      if p(s[0]) {
        assert ([s[0]] + Filter(s[1..], p))[1..] == Filter(s[1..], p);
      }
    }
  }

  /** A predicate that every element satisfies filters nothing out. */
  lemma {:induction false} FilterAllPass<T>(s: seq<T>, p: T -> bool)
    requires forall i :: 0 <= i < |s| ==> p(s[i])
    ensures Filter(s, p) == s
  {
    if s != [] {
      FilterAllPass(s[1..], p);
    }
  }

  /** Filtering a prefix yields a prefix of the filtered whole. */
  lemma {:induction false} FilterPrefix<T>(s: seq<T>, m: nat, p: T -> bool)
    requires m <= |s|
    ensures Filter(s[..m], p) <= Filter(s, p)
  {
    if m > 0 {
      assert s[..m][1..] == s[1..][..m - 1];
      FilterPrefix(s[1..], m - 1, p);
    }
  }

  /** Elements are in ascending order of `key`. */
  predicate SortedBy<T>(s: seq<T>, key: T -> int) {
    forall i, j :: 0 <= i < j < |s| ==> key(s[i]) <= key(s[j])
  }

  /** The predicate "has key `v`", used to speak about ties. */
  function KeyIs<T>(key: T -> int, v: int): T -> bool {
    x => key(x) == v
  }

  /** Puts `x` in front of the first element whose key is not below its own,
      so that `x` precedes every element of `s` it ties with. */
  function InsertBy<T>(x: T, s: seq<T>, key: T -> int): (r: seq<T>)
    ensures |r| == |s| + 1
    ensures multiset(r) == multiset(s) + multiset{x}
  {
    if s == [] || key(x) <= key(s[0]) then [x] + s
    else
      assert s == [s[0]] + s[1..];
      [s[0]] + InsertBy(x, s[1..], key)
  }

  /** `s.sort((a, b) => key(a) - key(b))`, as a stable insertion sort. */
  function SortBy<T>(s: seq<T>, key: T -> int): (r: seq<T>)
    ensures |r| == |s|
    ensures multiset(r) == multiset(s)
  {
    if s == [] then []
    else
      assert s == [s[0]] + s[1..];
      InsertBy(s[0], SortBy(s[1..], key), key)
  }

  lemma {:induction false} InsertBySorted<T>(x: T, s: seq<T>, key: T -> int)
    requires SortedBy(s, key)
    ensures SortedBy(InsertBy(x, s, key), key)
  {
    if s != [] && key(x) > key(s[0]) {
      var t := InsertBy(x, s[1..], key);
      InsertBySorted(x, s[1..], key);
      forall j | 0 <= j < |t| ensures key(s[0]) <= key(t[j]) {
        assert t[j] in multiset(t);
        if t[j] != x {
          assert t[j] in multiset(s[1..]);
          var k :| 0 <= k < |s[1..]| && s[1..][k] == t[j];
          assert s[k + 1] == t[j];
        }
      }
    }
  }

  /** The sort's output is in ascending key order. */
  lemma {:induction false} SortBySorted<T>(s: seq<T>, key: T -> int)
    ensures SortedBy(SortBy(s, key), key)
  {
    if s != [] {
      SortBySorted(s[1..], key);
      InsertBySorted(s[0], SortBy(s[1..], key), key);
    }
  }

  /** Inserting `x` puts it ahead of every element it ties with. */
  lemma {:induction false} InsertByTies<T>(x: T, s: seq<T>, key: T -> int, v: int)
    ensures Filter(InsertBy(x, s, key), KeyIs(key, v))
         == (if key(x) == v then [x] else []) + Filter(s, KeyIs(key, v))
  {
    var p := KeyIs(key, v);
    if s == [] || key(x) <= key(s[0]) {
      assert ([x] + s)[1..] == s;
    } else {
      InsertByTies(x, s[1..], key, v);
      assert ([s[0]] + InsertBy(x, s[1..], key))[1..] == InsertBy(x, s[1..], key);
      if key(x) == v {
        assert !p(s[0]);
      }
    }
  }

  /** Stability: for every key value, the elements carrying it come out in
      the order they went in. */
  lemma {:induction false} SortByStable<T>(s: seq<T>, key: T -> int, v: int)
    ensures Filter(SortBy(s, key), KeyIs(key, v)) == Filter(s, KeyIs(key, v))
  {
    if s != [] {
      SortByStable(s[1..], key, v);
      InsertByTies(s[0], SortBy(s[1..], key), key, v);
    }
  }

  /** The head of the sorted sequence (what `sort(...)[0]` picks) has the
      least key of the input, and among the elements with that key it is the
      first one in input order. */
  lemma SortByHead<T>(s: seq<T>, key: T -> int)
    requires s != []
    ensures SortBy(s, key)[0] in multiset(s)
    ensures forall i :: 0 <= i < |s| ==> key(SortBy(s, key)[0]) <= key(s[i])
    ensures var ties := Filter(s, KeyIs(key, key(SortBy(s, key)[0])));
      ties != [] && SortBy(s, key)[0] == ties[0]
  {
    var r := SortBy(s, key);
    SortBySorted(s, key);
    assert r[0] in multiset(r);
    forall i | 0 <= i < |s| ensures key(r[0]) <= key(s[i]) {
      assert s[i] in multiset(r);
      var k :| 0 <= k < |r| && r[k] == s[i];
    }
    SortByStable(s, key, key(r[0]));
    assert r == [r[0]] + r[1..];
  }

  /** The first element `filter` keeps is no later than any element that
      satisfies the predicate. */
  lemma {:induction false} FirstOfTies<T>(s: seq<T>, p: T -> bool, i: nat)
    requires i < |s| && p(s[i])
    ensures Filter(s, p) != [] && Filter(s, p)[0] in s[..i + 1]
  {
    if !p(s[0]) {
      FirstOfTies(s[1..], p, i - 1);
      assert s[1..][..i] == s[1..i + 1];
    }
  }

  /** Cutting a sorted sequence after `m` elements leaves nothing outside
      the cut with a smaller key than anything inside it. */
  lemma SortedCut<T>(r: seq<T>, key: T -> int, m: nat)
    requires SortedBy(r, key) && m <= |r|
    ensures forall x, y :: x in multiset(r[..m]) && y in multiset(r) - multiset(r[..m]) ==> key(x) <= key(y)
  {
    assert r == r[..m] + r[m..];
    assert multiset(r) - multiset(r[..m]) == multiset(r[m..]);
    forall x, y | x in multiset(r[..m]) && y in multiset(r[m..]) ensures key(x) <= key(y) {
      var i :| 0 <= i < m && r[..m][i] == x;
      var j :| 0 <= j < |r| - m && r[m..][j] == y;
      assert r[i] == x && r[m + j] == y;
    }
  }
}
