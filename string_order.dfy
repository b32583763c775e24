/** The order of `Array.prototype.sort()` without a comparator on arrays of
    strings: lexicographic by character code, a proper prefix first. */
module StringOrder {

  /** `a` sorts strictly before `b`. */
  predicate Less(a: string, b: string) {
    if a == [] then b != []
    else b != [] && (a[0] < b[0] || (a[0] == b[0] && Less(a[1..], b[1..])))
  }

  lemma {:induction false} LessIrreflexive(a: string)
    ensures !Less(a, a)
  {
    if a != [] {
      LessIrreflexive(a[1..]);
    }
  }

  lemma {:induction false} LessTransitive(a: string, b: string, c: string)
    requires Less(a, b) && Less(b, c)
    ensures Less(a, c)
  {
    if a != [] && a[0] == b[0] && b[0] == c[0] {
      LessTransitive(a[1..], b[1..], c[1..]);
    }
  }

  /** Two different strings are always ordered one way or the other. */
  lemma {:induction false} LessTotal(a: string, b: string)
    requires a != b
    ensures Less(a, b) || Less(b, a)
  {
    if a != [] && b != [] && a[0] == b[0] {
      assert a == [a[0]] + a[1..] && b == [b[0]] + b[1..];
      LessTotal(a[1..], b[1..]);
    }
  }

  /** Non-decreasing: no element sorts before an earlier one. */
  predicate Ascending(s: seq<string>) {
    forall i, j :: 0 <= i < j < |s| ==> !Less(s[j], s[i])
  }

  predicate StrictlyAscending(s: seq<string>) {
    forall i, j :: 0 <= i < j < |s| ==> Less(s[i], s[j])
  }

  predicate Distinct<T(==)>(s: seq<T>) {
    forall i, j :: 0 <= i < j < |s| ==> s[i] != s[j]
  }

  /** Puts `x` in front of the first element that does not sort before it. */
  function Insert(x: string, s: seq<string>): (r: seq<string>)
    ensures |r| == |s| + 1
    ensures multiset(r) == multiset(s) + multiset{x}
  {
    if s == [] || !Less(s[0], x) then [x] + s
    else
      assert s == [s[0]] + s[1..];
      [s[0]] + Insert(x, s[1..])
  }

  /** `s.sort()` on strings, as an insertion sort. */
  function Sort(s: seq<string>): (r: seq<string>)
    ensures |r| == |s|
    ensures multiset(r) == multiset(s)
  {
    if s == [] then []
    else
      assert s == [s[0]] + s[1..];
      Insert(s[0], Sort(s[1..]))
  }

  lemma {:induction false} InsertAscending(x: string, s: seq<string>)
    requires Ascending(s)
    ensures Ascending(Insert(x, s))
  {
    var r := Insert(x, s);
    if s == [] {
    } else if !Less(s[0], x) {
      forall j | 0 < j < |r| ensures !Less(r[j], x) {
        if Less(r[j], x) {
          // r[j] == s[j - 1], which does not sort before s[0]
          if r[j] != s[0] {
            LessTotal(r[j], s[0]);
            LessTransitive(s[0], r[j], x);
          }
        }
      }
    } else {
      var t := Insert(x, s[1..]);
      InsertAscending(x, s[1..]);
      forall j | 0 <= j < |t| ensures !Less(t[j], s[0]) {
        assert t[j] in multiset(t);
        if t[j] == x {
          if Less(x, s[0]) {
            LessTransitive(x, s[0], x);
            LessIrreflexive(x);
          }
        } else {
          assert t[j] in multiset(s[1..]);
          var k :| 0 <= k < |s[1..]| && s[1..][k] == t[j];
          assert s[k + 1] == t[j];
        }
      }
    }
  }

  /** The sort's output is non-decreasing. */
  lemma {:induction false} SortAscending(s: seq<string>)
    ensures Ascending(Sort(s))
  {
    if s != [] {
      SortAscending(s[1..]);
      InsertAscending(s[0], Sort(s[1..]));
    }
  }

  /** A sequence has no repeated element exactly when every element occurs
      in its multiset at most once. */
  lemma {:induction false} DistinctIffSingleCounts<T>(s: seq<T>)
    ensures Distinct(s) <==> forall x :: multiset(s)[x] <= 1
  {
    if s != [] {
      DistinctIffSingleCounts(s[1..]);
      assert s == [s[0]] + s[1..];
      if Distinct(s) {
        assert Distinct(s[1..]);
        assert s[0] !in s[1..];
      } else {
        var i, j :| 0 <= i < j < |s| && s[i] == s[j];
        assert s == s[..j] + s[j..];
        assert s[i] in multiset(s[..j]) && s[j] in multiset(s[j..]);
        assert multiset(s)[s[i]] >= 2;
      }
    }
  }

  /** Sorting a repetition-free sequence yields a strictly ascending one. */
  lemma SortDistinctStrict(s: seq<string>)
    requires Distinct(s)
    ensures StrictlyAscending(Sort(s))
  {
    var r := Sort(s);
    SortAscending(s);
    DistinctIffSingleCounts(s);
    DistinctIffSingleCounts(r);
    forall i, j | 0 <= i < j < |r| ensures Less(r[i], r[j]) {
      LessTotal(r[i], r[j]);
    }
  }
}
