/**
 * The ORDER BY of the two listing queries: a stable insertion sort by an
 * integer key, ascending or descending.
 */
module Sorting {

  /** `x` may stand before `y` when ordering by `key`, ascending or (with `desc`) descending. */
  predicate InOrder<T>(x: T, y: T, key: T -> int, desc: bool) {
    if desc then key(x) >= key(y) else key(x) <= key(y)
  }

  ghost predicate SortedBy<T>(s: seq<T>, key: T -> int, desc: bool) {
    forall i, j | 0 <= i < j < |s| :: InOrder(s[i], s[j], key, desc)
  }

  /** Places `x` into the sorted `s`, in front of the elements it ties with. */
  function InsertBy<T>(x: T, s: seq<T>, key: T -> int, desc: bool): (r: seq<T>)
    requires SortedBy(s, key, desc)
    ensures SortedBy(r, key, desc)
    ensures multiset(r) == multiset(s) + multiset{x}
    ensures forall i | 0 <= i < |r| :: r[i] == x || r[i] in s
  {
    if s == [] || InOrder(x, s[0], key, desc) then [x] + s
    else
      assert s == [s[0]] + s[1..];
      var tail := InsertBy(x, s[1..], key, desc);
      FirstBeforeRest(x, s, tail, key, desc);
      [s[0]] + tail
  }

  lemma FirstBeforeRest<T>(x: T, s: seq<T>, tail: seq<T>, key: T -> int, desc: bool)
    requires SortedBy(s, key, desc) && s != [] && !InOrder(x, s[0], key, desc)
    requires SortedBy(tail, key, desc)
    requires forall i | 0 <= i < |tail| :: tail[i] == x || tail[i] in s[1..]
    ensures SortedBy([s[0]] + tail, key, desc)
  {
    forall i | 0 <= i < |tail| ensures InOrder(s[0], tail[i], key, desc) {
      if tail[i] != x {
        var k :| 0 <= k < |s[1..]| && s[1..][k] == tail[i];
        assert s[k + 1] == tail[i];
      }
    }
  }

  /** `s` ordered by `key`; elements with equal keys keep their relative order. */
  function SortBy<T>(s: seq<T>, key: T -> int, desc: bool): (r: seq<T>)
    ensures SortedBy(r, key, desc)
    ensures multiset(r) == multiset(s)
  {
    if s == [] then []
    else
      assert s == [s[0]] + s[1..];
      InsertBy(s[0], SortBy(s[1..], key, desc), key, desc)
  }
}
