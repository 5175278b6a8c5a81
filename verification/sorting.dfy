/**
 * A stable insertion sort by a total preorder, the model of JavaScript's
 * `Array.prototype.sort(comparator)` for comparators that agree with `le`.
 */
module Sorting {

  ghost predicate TotalPreorder<T(!new)>(le: (T, T) -> bool) {
    && (forall a, b :: le(a, b) || le(b, a))
    && (forall a, b, c :: le(a, b) && le(b, c) ==> le(a, c))
  }

  /** Every earlier element is `le` every later one. */
  ghost predicate SortedBy<T>(s: seq<T>, le: (T, T) -> bool) {
    forall i, j :: 0 <= i < j < |s| ==> le(s[i], s[j])
  }

  /** Inserts `x` before the first element it is `le` to. */
  function Insert<T(!new)>(x: T, s: seq<T>, le: (T, T) -> bool): (r: seq<T>)
    requires TotalPreorder(le)
    requires SortedBy(s, le)
    ensures SortedBy(r, le)
    ensures multiset(r) == multiset(s) + multiset{x}
    decreases |s|
  {
    if |s| == 0 then [x]
    else if le(x, s[0]) then
      assert SortedBy([x] + s, le) by {
        forall i, j | 0 <= i < j < |[x] + s| ensures le(([x] + s)[i], ([x] + s)[j]) {
          if i == 0 && j > 1 { assert le(s[0], s[j - 1]); }
        }
      }
      [x] + s
    else
      var t := Insert(x, s[1..], le);
      HeadBelowInsert(x, s, t, le);
      assert s == [s[0]] + s[1..];
      [s[0]] + t
  }

  lemma HeadBelowInsert<T(!new)>(x: T, s: seq<T>, t: seq<T>, le: (T, T) -> bool)
    requires TotalPreorder(le)
    requires |s| > 0 && SortedBy(s, le) && !le(x, s[0])
    requires SortedBy(t, le) && multiset(t) == multiset(s[1..]) + multiset{x}
    ensures SortedBy([s[0]] + t, le)
  {
    forall k | 0 <= k < |t| ensures le(s[0], t[k]) {
      assert t[k] in multiset(t);
      if t[k] != x {
        assert t[k] in multiset(s[1..]);
        var j :| 0 <= j < |s[1..]| && s[1..][j] == t[k];
        assert le(s[0], s[j + 1]);
      }
    }
    forall i, j | 0 <= i < j < |[s[0]] + t| ensures le(([s[0]] + t)[i], ([s[0]] + t)[j]) {
      if i == 0 { assert le(s[0], t[j - 1]); } else { assert le(t[i - 1], t[j - 1]); }
    }
  }

  /** Sorts `xs` by `le`: the result is ordered and is a permutation of `xs`. */
  function SortBy<T(!new)>(xs: seq<T>, le: (T, T) -> bool): (r: seq<T>)
    requires TotalPreorder(le)
    ensures SortedBy(r, le)
    ensures multiset(r) == multiset(xs)
    decreases |xs|
  {
    if |xs| == 0 then []
    else
      assert xs == [xs[0]] + xs[1..];
      Insert(xs[0], SortBy(xs[1..], le), le)
  }
}
