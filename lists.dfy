/** Python's `[f(x) for x in xs if keep(x)]`. */
module Lists {
  function FilterMap<T, U>(xs: seq<T>, keep: T -> bool, f: T -> U): seq<U>
  {
    if |xs| == 0 then []
    else (if keep(xs[0]) then [f(xs[0])] else []) + FilterMap(xs[1..], keep, f)
  }

  /** The comprehension holds exactly the images of the kept elements. */
  lemma {:induction false} FilterMapMembers<T, U>(xs: seq<T>, keep: T -> bool, f: T -> U)
    ensures forall y :: y in FilterMap(xs, keep, f) <==> exists i :: 0 <= i < |xs| && keep(xs[i]) && y == f(xs[i])
  {
    if |xs| > 0 {
      var tail := xs[1..];
      FilterMapMembers(tail, keep, f);
      forall y ensures y in FilterMap(xs, keep, f) <==> exists i :: 0 <= i < |xs| && keep(xs[i]) && y == f(xs[i])
      {
        if y in FilterMap(tail, keep, f) {
          var i :| 0 <= i < |tail| && keep(tail[i]) && y == f(tail[i]);
          assert xs[i + 1] == tail[i];
        }
        if exists i :: 0 <= i < |xs| && keep(xs[i]) && y == f(xs[i]) {
          var i :| 0 <= i < |xs| && keep(xs[i]) && y == f(xs[i]);
          if i > 0 {
            assert tail[i - 1] == xs[i];
          }
        }
      }
    }
  }

  /** The comprehension over two pieces is the two comprehensions one after the other. */
  lemma {:induction false} FilterMapAppend<T, U>(a: seq<T>, b: seq<T>, keep: T -> bool, f: T -> U)
    ensures FilterMap(a + b, keep, f) == FilterMap(a, keep, f) + FilterMap(b, keep, f)
    decreases |a|
  {
    if |a| == 0 {
      assert a + b == b;
    } else {
      var head := if keep(a[0]) then [f(a[0])] else [];
      assert (a + b)[0] == a[0] && (a + b)[1..] == a[1..] + b;
      assert FilterMap(a + b, keep, f) == head + FilterMap(a[1..] + b, keep, f);
      FilterMapAppend(a[1..], b, keep, f);
      assert FilterMap(a, keep, f) == head + FilterMap(a[1..], keep, f);
    }
  }

  /** `[f(x) for x in xs]`, built from the front. */
  function MapSeq<T, U>(xs: seq<T>, f: T -> U): seq<U>
    decreases |xs|
  {
    if |xs| == 0 then [] else MapSeq(xs[..|xs| - 1], f) + [f(xs[|xs| - 1])]
  }

  /** The map has one image per element, in order. */
  lemma {:induction false} MapSeqAt<T, U>(xs: seq<T>, f: T -> U)
    ensures |MapSeq(xs, f)| == |xs|
    ensures forall k :: 0 <= k < |xs| ==> MapSeq(xs, f)[k] == f(xs[k])
    decreases |xs|
  {
    if |xs| > 0 {
      var init := xs[..|xs| - 1];
      MapSeqAt(init, f);
      assert forall k :: 0 <= k < |init| ==> init[k] == xs[k];
    }
  }
}
