/**
 * The chat history list in the sidebar: the loaded entries, as `sorted(histories.items(),
 * key=timestamp, reverse=True)`, newest first. Python's sort is stable also in reverse, so
 * entries with equal timestamps keep the order they were listed in.
 */
module Sidebar {
  import opened Conversations
  import Clock

  type Item = (string, Entry)

  /** The sort key: the entry's timestamp string. */
  function Key(item: Item): (timestamp: string)
    ensures timestamp == item.1.timestamp
  {
    item.1.timestamp
  }

  /** No item's key is smaller than that of an item listed after it. */
  predicate NewestFirst(items: seq<Item>) {
    forall i, j :: 0 <= i < j < |items| ==> !Clock.StrLess(Key(items[i]), Key(items[j]))
  }

  /** The items whose key is `k`, in the order listed. */
  function WithKey(items: seq<Item>, k: string): (same: seq<Item>)
    ensures |same| <= |items|
  {
    if items == [] then [] else (if Key(items[0]) == k then [items[0]] else []) + WithKey(items[1..], k)
  }

  /** Put `x` in front of the first item whose key is not greater than its own. */
  function Insert(x: Item, sorted: seq<Item>): (inserted: seq<Item>)
    ensures |inserted| == |sorted| + 1
  {
    if sorted == [] || !Clock.StrLess(Key(x), Key(sorted[0])) then [x] + sorted
    else [sorted[0]] + Insert(x, sorted[1..])
  }

  lemma NotLessTransitive(a: string, b: string, c: string)
    requires !Clock.StrLess(a, b) && !Clock.StrLess(b, c)
    ensures !Clock.StrLess(a, c)
  {
  }

  lemma {:induction false} InsertNewestFirst(x: Item, sorted: seq<Item>)
    requires NewestFirst(sorted)
    ensures NewestFirst(Insert(x, sorted))
    ensures multiset(Insert(x, sorted)) == multiset(sorted) + multiset{x}
    decreases |sorted|
  {
    if sorted == [] || !Clock.StrLess(Key(x), Key(sorted[0])) {
      forall j | 0 <= j < |sorted|
        ensures !Clock.StrLess(Key(x), Key(sorted[j]))
      {
        if j > 0 {
          NotLessTransitive(Key(x), Key(sorted[0]), Key(sorted[j]));
        }
      }
    } else {
      var head, tail := sorted[0], sorted[1..];
      assert sorted == [head] + tail;
      InsertNewestFirst(x, tail);
      var rest := Insert(x, tail);
      forall j | 0 <= j < |rest|
        ensures !Clock.StrLess(Key(head), Key(rest[j]))
      {
        assert rest[j] in multiset(tail) + multiset{x};
        if rest[j] == x {
          if Clock.StrLess(Key(head), Key(x)) {
            Clock.StrLessTransitive(Key(x), Key(head), Key(x));
            Clock.StrLessIrreflexive(Key(x));
          }
        } else {
          assert rest[j] in tail;
        }
      }
    }
  }

  /** `sorted(items, key=timestamp, reverse=True)`. */
  function SortNewestFirst(items: seq<Item>): (sorted: seq<Item>)
    ensures NewestFirst(sorted)
    ensures multiset(sorted) == multiset(items)
  {
    if items == [] then []
    else
      var rest := SortNewestFirst(items[1..]);
      InsertNewestFirst(items[0], rest);
      assert items == [items[0]] + items[1..];
      Insert(items[0], rest)
  }

  lemma {:induction false} InsertWithKey(x: Item, sorted: seq<Item>, k: string)
    ensures WithKey(Insert(x, sorted), k) == (if Key(x) == k then [x] else []) + WithKey(sorted, k)
    decreases |sorted|
  {
    if sorted == [] || !Clock.StrLess(Key(x), Key(sorted[0])) {
      assert ([x] + sorted)[1..] == sorted;
    } else {
      if Key(x) == Key(sorted[0]) {
        Clock.StrLessIrreflexive(Key(x));
      }
      InsertWithKey(x, sorted[1..], k);
      assert ([sorted[0]] + Insert(x, sorted[1..]))[1..] == Insert(x, sorted[1..]);
    }
  }

  /** Stability: for every timestamp, its entries appear in the order they were listed. */
  lemma {:induction false} SortStable(items: seq<Item>, k: string)
    ensures WithKey(SortNewestFirst(items), k) == WithKey(items, k)
  {
    if items != [] {
      SortStable(items[1..], k);
      InsertWithKey(items[0], SortNewestFirst(items[1..]), k);
    }
  }

  /**
   * When every listed timestamp was written from a clock reading, newest first by string is
   * newest first by reading: no entry is listed before one with a later clock reading.
   */
  lemma NewestFirstIsChronological(items: seq<Item>, written: seq<Clock.Instant>)
    requires NewestFirst(items)
    requires |written| == |items|
    requires forall i :: 0 <= i < |items| ==> Key(items[i]) == Clock.FormatTimestamp(written[i])
    ensures forall i, j :: 0 <= i < j < |items| ==> !Clock.Before(written[i], written[j])
  {
    forall i, j | 0 <= i < j < |items|
      ensures !Clock.Before(written[i], written[j])
    {
      Clock.TimestampOrder(written[i], written[j]);
    }
  }
}
