/**
  The two orders the scripts sort by, and `sorted(set(xs))`.

  Python orders `str` values by code point, lexicographically, a proper prefix
  first. `pathlib` orders paths by their lists of components; that is the same as
  comparing the path strings with '/' ranked below every other character, which
  is how the `paths` flag below is read.
*/
module Ordering {

  function Rank(c: char, paths: bool): int
  {
    if paths && c == '/' then -1 else c as int
  }

  lemma RankInjective(c: char, d: char, paths: bool)
    ensures Rank(c, paths) == Rank(d, paths) <==> c == d
  {
  }

  /** `a < b` on str (paths == false) or on pathlib paths (paths == true). */
  predicate Less(a: string, b: string, paths: bool)
    decreases |a|
  {
    if |a| == 0 then |b| > 0
    else if |b| == 0 then false
    else if a[0] == b[0] then Less(a[1..], b[1..], paths)
    else Rank(a[0], paths) < Rank(b[0], paths)
  }

  lemma {:induction false} LessIrreflexive(a: string, paths: bool)
    ensures !Less(a, a, paths)
    decreases |a|
  {
    if |a| > 0 {
      LessIrreflexive(a[1..], paths);
    }
  }

  lemma {:induction false} LessTransitive(a: string, b: string, c: string, paths: bool)
    requires Less(a, b, paths) && Less(b, c, paths)
    ensures Less(a, c, paths)
    decreases |a|
  {
    if |a| > 0 && a[0] == b[0] && b[0] == c[0] {
      LessTransitive(a[1..], b[1..], c[1..], paths);
    }
  }

  lemma {:induction false} LessTotal(a: string, b: string, paths: bool)
    requires a != b
    ensures Less(a, b, paths) || Less(b, a, paths)
    decreases |a|
  {
    if |a| > 0 && |b| > 0 {
      if a[0] == b[0] {
        assert a == [a[0]] + a[1..] && b == [b[0]] + b[1..];
        LessTotal(a[1..], b[1..], paths);
      } else {
        RankInjective(a[0], b[0], paths);
      }
    }
  }

  lemma LessAsymmetric(a: string, b: string, paths: bool)
    requires Less(a, b, paths)
    ensures !Less(b, a, paths)
  {
    if Less(b, a, paths) {
      LessTransitive(a, b, a, paths);
      LessIrreflexive(a, paths);
    }
  }

  /** Strictly increasing, hence sorted and duplicate-free. */
  predicate StrictlySorted(s: seq<string>, paths: bool)
  {
    forall i, j :: 0 <= i < j < |s| ==> Less(s[i], s[j], paths)
  }

  lemma StrictlySortedDistinct(s: seq<string>, paths: bool, i: int, j: int)
    requires StrictlySorted(s, paths)
    requires 0 <= i < |s| && 0 <= j < |s| && i != j
    ensures s[i] != s[j]
  {
    if i < j {
      LessIrreflexive(s[i], paths);
    } else {
      LessIrreflexive(s[j], paths);
    }
  }

  /** Inserts `x` into its place in a strictly sorted list, unless it is there already. */
  function Insert(x: string, s: seq<string>, paths: bool): (r: seq<string>)
    requires StrictlySorted(s, paths)
    ensures StrictlySorted(r, paths)
    ensures forall y :: y in r <==> y == x || y in s
    ensures |r| <= |s| + 1
    decreases |s|
  {
    if |s| == 0 then [x]
    else if x == s[0] then s
    else if Less(x, s[0], paths) then
      assert forall j :: 0 < j < |s| ==> Less(x, s[j], paths) by {
        forall j | 0 < j < |s| ensures Less(x, s[j], paths) {
          LessTransitive(x, s[0], s[j], paths);
        }
      }
      [x] + s
    else
      LessTotal(x, s[0], paths);
      var t := Insert(x, s[1..], paths);
      assert forall y :: y in t ==> Less(s[0], y, paths) by {
        forall y | y in t ensures Less(s[0], y, paths) {
          if y != x {
            var k :| 0 <= k < |s[1..]| && s[1..][k] == y;
            assert s[k + 1] == y;
          }
        }
      }
      [s[0]] + t
  }

  /** `sorted(set(xs))`: the elements of `xs`, each once, in increasing order. */
  function SortDedup(xs: seq<string>, paths: bool): (r: seq<string>)
    ensures StrictlySorted(r, paths)
    ensures forall y :: y in r <==> y in xs
    ensures |r| <= |xs|
  {
    if |xs| == 0 then [] else Insert(xs[0], SortDedup(xs[1..], paths), paths)
  }

  /** A strictly sorted list is determined by its elements: whatever route the
      sorting took, `sorted(set(..))` of two lists with the same elements agree. */
  lemma {:induction false} StrictlySortedUnique(a: seq<string>, b: seq<string>, paths: bool)
    requires StrictlySorted(a, paths) && StrictlySorted(b, paths)
    requires forall y :: y in a <==> y in b
    ensures a == b
    decreases |a|
  {
    if |a| > 0 {
      assert a[0] in a;
    }
    if |b| > 0 {
      assert b[0] in b;
    }
    if |a| > 0 && |b| > 0 {
      if a[0] != b[0] {
        assert a[0] in a && b[0] in b;
        var i :| 0 <= i < |b| && b[i] == a[0];
        var j :| 0 <= j < |a| && a[j] == b[0];
        assert i > 0 && j > 0;
        LessAsymmetric(a[0], b[0], paths);
      }
      forall y ensures y in a[1..] <==> y in b[1..] {
        if y in a[1..] {
          var k :| 0 <= k < |a[1..]| && a[1..][k] == y;
          StrictlySortedDistinct(a, paths, 0, k + 1);
          assert a[k + 1] == y && y in a;
          var m :| 0 <= m < |b| && b[m] == y;
          assert m != 0;
          assert b[1..][m - 1] == y;
        }
        if y in b[1..] {
          var k :| 0 <= k < |b[1..]| && b[1..][k] == y;
          StrictlySortedDistinct(b, paths, 0, k + 1);
          assert b[k + 1] == y && y in b;
          var m :| 0 <= m < |a| && a[m] == y;
          assert m != 0;
          assert a[1..][m - 1] == y;
        }
      }
      StrictlySortedUnique(a[1..], b[1..], paths);
      assert a == [a[0]] + a[1..] && b == [b[0]] + b[1..];
    }
  }

  /** `sorted(set(xs))` depends only on the elements of `xs`. */
  lemma SortDedupSameElements(xs: seq<string>, ys: seq<string>, paths: bool)
    requires forall y :: y in xs <==> y in ys
    ensures SortDedup(xs, paths) == SortDedup(ys, paths)
  {
    StrictlySortedUnique(SortDedup(xs, paths), SortDedup(ys, paths), paths);
  }

  /** Sorting a list that is already strictly sorted changes nothing. */
  lemma SortDedupOfSorted(xs: seq<string>, paths: bool)
    requires StrictlySorted(xs, paths)
    ensures SortDedup(xs, paths) == xs
  {
    StrictlySortedUnique(SortDedup(xs, paths), xs, paths);
  }

  /** A duplicate-free list keeps its length under sort-and-dedup: `sorted` of a
      list without repeats and `sorted(set(..))` of it coincide. */
  lemma {:induction false} SortDedupLengthOfDistinct(xs: seq<string>, paths: bool)
    requires forall i, j :: 0 <= i < j < |xs| ==> xs[i] != xs[j]
    ensures |SortDedup(xs, paths)| == |xs|
  {
    if |xs| > 0 {
      SortDedupLengthOfDistinct(xs[1..], paths);
      var t := SortDedup(xs[1..], paths);
      assert xs[0] !in xs[1..];
      InsertNewGrows(xs[0], t, paths);
    }
  }

  lemma {:induction false} InsertNewGrows(x: string, s: seq<string>, paths: bool)
    requires StrictlySorted(s, paths) && x !in s
    ensures |Insert(x, s, paths)| == |s| + 1
    decreases |s|
  {
    if |s| > 0 && x != s[0] && !Less(x, s[0], paths) {
      assert x !in s[1..];
      InsertNewGrows(x, s[1..], paths);
    }
  }
}
