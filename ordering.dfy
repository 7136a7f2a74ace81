/**
 * Ordering a list by an integer key, as the listings ask the database to:
 * the sortedness predicate and a stable insertion that keeps it.
 */
module Ordering {
  /** Keys never decrease along the list. */
  predicate Ascending<T>(s: seq<T>, key: T -> int)
  {
    forall i, j :: 0 <= i < j < |s| ==> key(s[i]) <= key(s[j])
  }

  lemma PrependSmallest<T>(head: T, tail: seq<T>, x: T, rest: seq<T>, key: T -> int)
    requires Ascending([head] + tail, key) && Ascending(rest, key)
    requires key(head) <= key(x)
    requires multiset(rest) == multiset(tail) + multiset{x}
    ensures Ascending([head] + rest, key)
  {
    forall j | 0 <= j < |rest|
      ensures key(head) <= key(rest[j])
    {
      assert rest[j] in multiset(rest);
      if rest[j] != x {
        assert rest[j] in multiset(tail);
        assert rest[j] in tail;
        var k :| 0 <= k < |tail| && tail[k] == rest[j];
        var whole := [head] + tail;
        assert whole[0] == head && whole[k + 1] == tail[k];
        assert key(whole[0]) <= key(whole[k + 1]);
      }
    }
  }

  /** Inserts after every element whose key is not larger, so equal keys keep their arrival order. */
  function InsertAscending<T>(s: seq<T>, x: T, key: T -> int): (r: seq<T>)
    requires Ascending(s, key)
    ensures Ascending(r, key)
    ensures multiset(r) == multiset(s) + multiset{x}
  {
    if s == [] || key(x) < key(s[0]) then [x] + s
    else
      var rest := InsertAscending(s[1..], x, key);
      assert s == [s[0]] + s[1..];
      PrependSmallest(s[0], s[1..], x, rest, key);
      [s[0]] + rest
  }
}
