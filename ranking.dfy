/** ORDER BY ... ASC followed by an optional LIMIT, as both attendance
    reports use it. Neither store promises an order among rows with equal
    sort keys, so the specification (`IsTop`) only asks for a sorted
    selection of the smallest rows; `TopRows` is one result that meets it. */
module Ranking {
  import opened Common

  /** `le` is a total preorder: every two rows compare, transitively. */
  ghost predicate TotalPreorder<T(!new)>(le: (T, T) -> bool)
  {
    && (forall a, b :: le(a, b) || le(b, a))
    && (forall a, b, c :: le(a, b) && le(b, c) ==> le(a, c))
  }

  predicate SortedBy<T>(s: seq<T>, le: (T, T) -> bool)
  {
    forall i, j :: 0 <= i < j < |s| ==> le(s[i], s[j])
  }

  /** The number of rows LIMIT keeps: all of them when there is no LIMIT. */
  function LimitCount(n: int, limit: Option<nat>): nat
    requires n >= 0
  {
    if limit.Some? && limit.value < n then limit.value else n
  }

  /** `out` is what ORDER BY `le` then LIMIT may return for the rows `all`:
      sorted, drawn from `all`, as many rows as the limit allows, and no row
      left out sorts before a row kept. */
  ghost predicate IsTop<T(!new)>(out: seq<T>, all: seq<T>, le: (T, T) -> bool, limit: Option<nat>)
  {
    && SortedBy(out, le)
    && multiset(out) <= multiset(all)
    && |out| == LimitCount(|all|, limit)
    && (forall x, y :: x in multiset(out) && y in multiset(all) - multiset(out) ==> le(x, y))
  }

  function Insert<T>(x: T, s: seq<T>, le: (T, T) -> bool): (r: seq<T>)
    ensures multiset(r) == multiset(s) + multiset{x}
    ensures |r| == |s| + 1
  {
    if s == [] then [x]
    else if le(x, s[0]) then [x] + s
    else
      assert s == [s[0]] + s[1..];
      [s[0]] + Insert(x, s[1..], le)
  }

  lemma {:induction false} InsertSorted<T(!new)>(x: T, s: seq<T>, le: (T, T) -> bool)
    requires TotalPreorder(le) && SortedBy(s, le)
    ensures SortedBy(Insert(x, s, le), le)
    decreases |s|
  {
    if s != [] && !le(x, s[0]) {
      InsertSorted(x, s[1..], le);
      var r := Insert(x, s, le);
      var tail := Insert(x, s[1..], le);
      forall j | 1 <= j < |r| ensures le(r[0], r[j]) {
        assert r[j] == tail[j - 1];
        assert tail[j - 1] in multiset(tail);
        assert tail[j - 1] in multiset(s[1..]) + multiset{x};
        if tail[j - 1] != x {
          assert tail[j - 1] in multiset(s[1..]);
          var k :| 0 <= k < |s[1..]| && s[1..][k] == tail[j - 1];
          assert s[k + 1] == tail[j - 1];
        }
      }
    }
  }

  /** Insertion sort: a sorted permutation. */
  function Sort<T>(s: seq<T>, le: (T, T) -> bool): (r: seq<T>)
    ensures multiset(r) == multiset(s)
    ensures |r| == |s|
  {
    if s == [] then []
    else
      assert s == [s[0]] + s[1..];
      Insert(s[0], Sort(s[1..], le), le)
  }

  lemma {:induction false} SortSorted<T(!new)>(s: seq<T>, le: (T, T) -> bool)
    requires TotalPreorder(le)
    ensures SortedBy(Sort(s, le), le)
    decreases |s|
  {
    if s != [] {
      SortSorted(s[1..], le);
      InsertSorted(s[0], Sort(s[1..], le), le);
    }
  }

  /** ORDER BY then LIMIT on concrete rows. */
  function TopRows<T>(all: seq<T>, le: (T, T) -> bool, limit: Option<nat>): seq<T>
  {
    Sort(all, le)[..LimitCount(|all|, limit)]
  }

  lemma TopRowsIsTop<T(!new)>(all: seq<T>, le: (T, T) -> bool, limit: Option<nat>)
    requires TotalPreorder(le)
    ensures IsTop(TopRows(all, le, limit), all, le, limit)
  {
    var sorted := Sort(all, le);
    var n := LimitCount(|all|, limit);
    SortSorted(all, le);
    var out := sorted[..n];
    assert sorted == out + sorted[n..];
    assert multiset(sorted) == multiset(out) + multiset(sorted[n..]);
    forall x, y | x in multiset(out) && y in multiset(all) - multiset(out)
      ensures le(x, y)
    {
      assert y in multiset(sorted[n..]);
      var i :| 0 <= i < |out| && out[i] == x;
      var j :| 0 <= j < |sorted[n..]| && sorted[n..][j] == y;
      assert sorted[i] == x && sorted[n + j] == y;
    }
  }
}
