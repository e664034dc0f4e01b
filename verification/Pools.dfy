/** The two index pools: intrusive free lists threaded through the level array and the order array. */
module Pools {
  import opened Types
  import opened LevelTree

  predicate Distinct(s: seq<int>) {
    forall a, b :: 0 <= a < b < |s| ==> s[a] != s[b]
  }

  lemma {:induction false} BoundedSetCardinality(s: set<int>, n: nat)
    requires forall i :: i in s ==> 0 <= i < n
    ensures |s| <= n
  {
    if n == 0 {
      assert forall i :: i !in s;
      assert s == {};
    } else {
      var rest := s - {n - 1};
      BoundedSetCardinality(rest, n - 1);
      if n - 1 in s {
        assert s == rest + {n - 1};
      } else {
        assert s == rest;
      }
    }
  }

  lemma {:induction false} DistinctLength(q: seq<int>, n: nat)
    requires Distinct(q) && forall k :: 0 <= k < |q| ==> 0 <= q[k] < n
    ensures |q| <= n
  {
    var s := set i | i in q;
    DistinctAsSet(q);
    BoundedSetCardinality(s, n);
  }

  lemma {:induction false} DistinctAsSet(q: seq<int>)
    requires Distinct(q)
    ensures |set i | i in q| == |q|
  {
    if q != [] {
      var rest := q[..|q| - 1];
      DistinctAsSet(rest);
      assert q == rest + [q[|q| - 1]];
      assert (set i | i in q) == (set i | i in rest) + {q[|q| - 1]};
    }
  }

  /** What follows position k of an intrusive list. */
  function Following(s: seq<int>, k: int): int
    requires 0 <= k < |s|
  {
    if k + 1 < |s| then s[k + 1] else NONE
  }

  lemma {:induction false} DistinctCons(i: int, s: seq<int>)
    requires Distinct(s) && i !in s
    ensures Distinct([i] + s)
  {
    var t := [i] + s;
    forall a, b | 0 <= a < b < |t| ensures t[a] != t[b] {
      if a > 0 { assert t[a] == s[a - 1]; }
      assert t[b] == s[b - 1];
    }
  }

  lemma {:induction false} DistinctTail(s: seq<int>)
    requires Distinct(s) && s != []
    ensures Distinct(s[1..]) && s[0] !in s[1..]
  {
    var t := s[1..];
    forall k | 0 <= k < |t| ensures t[k] == s[k + 1] && t[k] != s[0] {}
    forall a, b | 0 <= a < b < |t| ensures t[a] != t[b] {
      assert s[a + 1] != s[b + 1];
    }
  }

  /** `free` is the free list of levels, starting at `head`; every free slot is blank. */
  ghost predicate LevelPool(levels: seq<PriceLevel>, head: int, free: seq<int>) {
    head == (if free == [] then NONE else free[0]) && Distinct(free) &&
    forall k :: 0 <= k < |free| ==> 0 <= free[k] < |levels| && levels[free[k]] == BlankLevel(Following(free, k))
  }

  ghost predicate OrderPool(orders: seq<Order>, head: int, free: seq<int>) {
    head == (if free == [] then NONE else free[0]) && Distinct(free) &&
    forall k :: 0 <= k < |free| ==> 0 <= free[k] < |orders| && orders[free[k]] == BlankOrder(Following(free, k))
  }

  lemma {:induction false} ActiveNotFree(levels: seq<PriceLevel>, head: int, free: seq<int>, i: int)
    requires LevelPool(levels, head, free) && InRange(levels, i) && levels[i].active
    ensures i !in free
  {}

  /** Changes outside the free list do not matter to it. */
  lemma {:induction false} LevelPoolFrame(before: seq<PriceLevel>, after: seq<PriceLevel>, head: int, free: seq<int>)
    requires LevelPool(before, head, free) && |after| == |before|
    requires forall i :: 0 <= i < |before| && i in free ==> after[i] == before[i]
    ensures LevelPool(after, head, free)
  {
    forall k | 0 <= k < |free| ensures 0 <= free[k] < |after| && after[free[k]] == BlankLevel(Following(free, k)) {
      assert free[k] in free;
    }
  }

  lemma {:induction false} LevelPoolPop(levels: seq<PriceLevel>, head: int, free: seq<int>)
    requires LevelPool(levels, head, free) && free != []
    ensures InRange(levels, head) && head !in free[1..]
    ensures LevelPool(levels, levels[head].freeNext, free[1..])
  {
    var rest := free[1..];
    DistinctTail(free);
    hide Distinct;
    assert levels[free[0]] == BlankLevel(Following(free, 0));
    forall k | 0 <= k < |rest|
      ensures 0 <= rest[k] < |levels| && levels[rest[k]] == BlankLevel(Following(rest, k)) && rest[k] != head
    {
      assert rest[k] == free[k + 1] && Following(rest, k) == Following(free, k + 1);
    }
  }

  lemma {:induction false} LevelPoolPush(levels: seq<PriceLevel>, head: int, free: seq<int>, i: int)
    requires LevelPool(levels, head, free) && InRange(levels, i) && i !in free && levels[i] == BlankLevel(head)
    ensures LevelPool(levels, i, [i] + free)
  {
    var more := [i] + free;
    DistinctCons(i, free);
    hide Distinct;
    forall k | 0 <= k < |more| ensures 0 <= more[k] < |levels| && levels[more[k]] == BlankLevel(Following(more, k)) {
      if k > 0 {
        assert more[k] == free[k - 1] && Following(more, k) == Following(free, k - 1);
      }
    }
  }

  lemma {:induction false} OrderPoolFrame(before: seq<Order>, after: seq<Order>, head: int, free: seq<int>)
    requires OrderPool(before, head, free) && |after| == |before|
    requires forall i :: 0 <= i < |before| && i in free ==> after[i] == before[i]
    ensures OrderPool(after, head, free)
  {
    forall k | 0 <= k < |free| ensures 0 <= free[k] < |after| && after[free[k]] == BlankOrder(Following(free, k)) {
      assert free[k] in free;
    }
  }

  lemma {:induction false} OrderPoolPop(orders: seq<Order>, head: int, free: seq<int>)
    requires OrderPool(orders, head, free) && free != []
    ensures 0 <= head < |orders| && head !in free[1..] && orders[head] == BlankOrder(orders[head].freeNext)
    ensures OrderPool(orders, orders[head].freeNext, free[1..])
  {
    var rest := free[1..];
    DistinctTail(free);
    hide Distinct;
    assert orders[free[0]] == BlankOrder(Following(free, 0));
    forall k | 0 <= k < |rest|
      ensures 0 <= rest[k] < |orders| && orders[rest[k]] == BlankOrder(Following(rest, k)) && rest[k] != head
    {
      assert rest[k] == free[k + 1] && Following(rest, k) == Following(free, k + 1);
    }
  }

  lemma {:induction false} OrderPoolPush(orders: seq<Order>, head: int, free: seq<int>, i: int)
    requires OrderPool(orders, head, free) && 0 <= i < |orders| && i !in free && orders[i] == BlankOrder(head)
    ensures OrderPool(orders, i, [i] + free)
  {
    var more := [i] + free;
    DistinctCons(i, free);
    hide Distinct;
    forall k | 0 <= k < |more| ensures 0 <= more[k] < |orders| && orders[more[k]] == BlankOrder(Following(more, k)) {
      if k > 0 {
        assert more[k] == free[k - 1] && Following(more, k) == Following(free, k - 1);
      }
    }
  }

  /** Slot o has been taken off the front of the free list and blanked. */
  ghost predicate Acquired(orders: seq<Order>, free: seq<int>, orders': seq<Order>, head': int, free': seq<int>,
                           o: int) {
    free != [] && o == free[0] && 0 <= o < |orders| && orders' == orders[o := BlankOrder(NONE).(active := true)] &&
    free' == free[1..] && o !in free' && orders[o] == BlankOrder(head') && OrderPool(orders', head', free')
  }
}
