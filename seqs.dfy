/**
 * Sequence helpers shared by the queries and the deletion policies: a
 * WHERE-style filter over stored rows and the "earlier row before later row"
 * orderings the tables keep.
 */
module Seqs {

  /** The elements of `s` that satisfy `keep`, in their stored order. */
  function Keep<T>(s: seq<T>, keep: T -> bool): (r: seq<T>)
    ensures |r| <= |s|
    ensures forall i :: 0 <= i < |r| ==> r[i] in s && keep(r[i])
    ensures forall i :: 0 <= i < |s| && keep(s[i]) ==> s[i] in r
  {
    if s == [] then []
    else (if keep(s[0]) then [s[0]] else []) + Keep(s[1..], keep)
  }

  /** Every earlier element of `s` stands in relation `before` to every later one. */
  ghost predicate Ascending<T>(s: seq<T>, before: (T, T) -> bool)
  {
    forall i, j :: 0 <= i < j < |s| ==> before(s[i], s[j])
  }

  /** No element occurs twice. */
  ghost predicate Distinct<T>(s: seq<T>)
  {
    forall i, j :: 0 <= i < j < |s| ==> s[i] != s[j]
  }

  /** Filtering keeps whatever order the stored rows were in. */
  lemma {:induction false} KeepAscending<T>(s: seq<T>, keep: T -> bool, before: (T, T) -> bool)
    requires Ascending(s, before)
    ensures Ascending(Keep(s, keep), before)
  {
    if s != [] {
      var rest := Keep(s[1..], keep);
      assert Ascending(s[1..], before) by {
        forall i, j | 0 <= i < j < |s[1..]| ensures before(s[1..][i], s[1..][j]) {
          assert s[1..][i] == s[i + 1] && s[1..][j] == s[j + 1];
        }
      }
      KeepAscending(s[1..], keep, before);
      if keep(s[0]) {
        var r := [s[0]] + rest;
        forall i, j | 0 <= i < j < |r| ensures before(r[i], r[j]) {
          if i == 0 {
            assert r[j] == rest[j - 1] && rest[j - 1] in s[1..];
            var k :| 0 <= k < |s[1..]| && s[1..][k] == r[j];
            assert s[k + 1] == r[j];
          } else {
            assert r[i] == rest[i - 1] && r[j] == rest[j - 1];
          }
        }
      }
    }
  }

  /** Filtering a sequence without duplicates yields one without duplicates. */
  lemma {:induction false} KeepDistinct<T>(s: seq<T>, keep: T -> bool)
    requires Distinct(s)
    ensures Distinct(Keep(s, keep))
  {
    if s != [] {
      var rest := Keep(s[1..], keep);
      assert Distinct(s[1..]) by {
        forall i, j | 0 <= i < j < |s[1..]| ensures s[1..][i] != s[1..][j] {
          assert s[1..][i] == s[i + 1] && s[1..][j] == s[j + 1];
        }
      }
      KeepDistinct(s[1..], keep);
      if keep(s[0]) {
        var r := [s[0]] + rest;
        forall i, j | 0 <= i < j < |r| ensures r[i] != r[j] {
          if i == 0 {
            assert r[j] == rest[j - 1] && rest[j - 1] in s[1..];
            var k :| 0 <= k < |s[1..]| && s[1..][k] == r[j];
            assert s[k + 1] == r[j];
          } else {
            assert r[i] == rest[i - 1] && r[j] == rest[j - 1];
          }
        }
      }
    }
  }

  /** How often each value occurs after filtering: as often as before if kept, else never. */
  lemma {:induction false} KeepMultiset<T>(s: seq<T>, keep: T -> bool, x: T)
    ensures multiset(Keep(s, keep))[x] == if keep(x) then multiset(s)[x] else 0
  {
    if s != [] {
      assert s == [s[0]] + s[1..];
      KeepMultiset(s[1..], keep, x);
    }
  }

  /** A filter that keeps every element changes nothing. */
  lemma {:induction false} KeepAll<T>(s: seq<T>, keep: T -> bool)
    requires forall i :: 0 <= i < |s| ==> keep(s[i])
    ensures Keep(s, keep) == s
  {
    if s != [] {
      KeepAll(s[1..], keep);
    }
  }

  /** In a sequence without duplicates every value occurs at most once. */
  lemma {:induction false} DistinctMultiset<T>(s: seq<T>, x: T)
    requires Distinct(s)
    ensures multiset(s)[x] == if x in s then 1 else 0
  {
    if s != [] {
      assert s == [s[0]] + s[1..];
      assert Distinct(s[1..]) by {
        forall i, j | 0 <= i < j < |s[1..]| ensures s[1..][i] != s[1..][j] {
          assert s[1..][i] == s[i + 1] && s[1..][j] == s[j + 1];
        }
      }
      DistinctMultiset(s[1..], x);
      if s[0] == x {
        forall k | 0 <= k < |s[1..]| ensures s[1..][k] != x {
          assert s[1..][k] == s[k + 1];
        }
      }
    }
  }

  /** `n` copies of `x`. */
  function Repeat<T>(x: T, n: nat): (r: seq<T>)
    ensures |r| == n
    ensures forall i :: 0 <= i < n ==> r[i] == x
  {
    if n == 0 then [] else [x] + Repeat(x, n - 1)
  }

  /** Filtering a concatenation filters each part. */
  lemma {:induction false} KeepAppend<T>(a: seq<T>, b: seq<T>, keep: T -> bool)
    ensures Keep(a + b, keep) == Keep(a, keep) + Keep(b, keep)
  {
    if a == [] {
      assert a + b == b;
    } else {
      assert (a + b)[1..] == a[1..] + b;
      KeepAppend(a[1..], b, keep);
    }
  }
}
