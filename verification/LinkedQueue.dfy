// The intrusive doubly linked queue (lib/queue.c) that every server rests on,
// as pointer operations that refine operations on a sequence.
module LinkedQueue {
  import Common

  class Item {
    var next: Item?
    var prev: Item?
  }

  ghost predicate Members(s: seq<Item>, all: set<Item>) {
    forall i | 0 <= i < |s| :: s[i] in all
  }

  class Queue {
    var head: Item?
    var tail: Item?
    ghost var items: seq<Item>   // front to back

    // Each link leads to the neighbour in `items`, and the ends to null.
    ghost predicate Valid()
      reads this, items
    {
      && (forall i, j | 0 <= i < j < |items| :: items[i] != items[j])
      && (if items == [] then head == null && tail == null
          else head == items[0] && tail == items[|items| - 1])
      && (forall i {:trigger items[i].next} | 0 <= i < |items| ::
            items[i].next == (if i + 1 < |items| then items[i + 1] else null))
      && (forall i {:trigger items[i].prev} | 0 <= i < |items| ::
            items[i].prev == (if 0 < i then items[i - 1] else null))
    }

    ghost function ItemSet(): set<Item>
      reads this
    {
      set x | x in items
    }

    // q_init
    constructor ()
      ensures Valid() && items == []
    {
      head, tail, items := null, null, [];
    }

    // q_front: prepend
    method Front(item: Item)
      requires Valid() && item !in items
      modifies this, item, if items == [] then {} else {items[0]}
      ensures Valid() && items == [item] + old(items)
    {
      if head != null {
        item.next := head;
        item.prev := item.next.prev;
        item.next.prev := item;
      } else {
        item.next := tail;
        item.prev := head;
        tail := item;
      }
      head := item;
      items := [item] + items;
    }

    // q_end: append
    method End(item: Item)
      requires Valid() && item !in items
      modifies this, item, if items == [] then {} else {items[|items| - 1]}
      ensures Valid() && items == old(items) + [item]
    {
      if tail != null {
        item.prev := tail;
        item.next := item.prev.next;
        item.prev.next := item;
      } else {
        item.next := tail;
        item.prev := head;
        head := item;
      }
      tail := item;
      items := items + [item];
    }

    // q_remv: unlink a member
    method Remove(item: Item, ghost k: nat)
      requires Valid() && k < |items| && items[k] == item
      modifies this, if 0 < k then {items[k - 1]} else {}, if k + 1 < |items| then {items[k + 1]} else {}
      ensures Valid() && items == Common.Remove(old(items), k)
      ensures item.next == old(item.next) && item.prev == old(item.prev)
    {
      assert items[k].prev == item.prev && items[k].next == item.next;
      ghost var was := items;
      if item.prev != null {
        item.prev.next := item.next;
      } else {
        head := item.next;
      }
      if item.next != null {
        item.next.prev := item.prev;
      } else {
        tail := item.prev;
      }
      items := Common.Remove(items, k);
      assert forall i | 0 <= i < |items| :: items[i] == if i < k then was[i] else was[i + 1];
    }

    // The callback of q_forall, as far as the queue can tell: it may unlink
    // the item it is given, which then belongs to others and loses its links,
    // and it may ask the walk to stop.
    method Callback(item: Item, unlinks: set<Item>, stops: set<Item>, ghost k: nat, ghost all: set<Item>)
      returns (ret: Item?)
      requires Valid() && k < |items| && items[k] == item
      requires Members(items, all)
      modifies this, all
      ensures Valid() && Members(items, all)
      ensures ret == if item in stops then item else null
      ensures items == if item in unlinks then Common.Remove(old(items), k) else old(items)
    {
      ret := if item in stops then item else null;
      if item in unlinks {
        assert forall x | x in Common.Remove(items, k) :: x != item;
        Remove(item, k);
        item.next := null;
        item.prev := null;
      }
    }

    // A walk of q_forall that began with the items `was` has dealt with the
    // first n and will visit `it` next.
    ghost predicate Walking(was: seq<Item>, n: nat, it: Item?, unlinks: set<Item>, all: set<Item>)
      reads this, items
    {
      && Valid() && Members(items, all)
      && n <= |was| && items == Kept(was[..n], unlinks) + was[n..]
      && it == if n < |was| then was[n] else null
    }

    // q_forall: visits the items in order and returns the one at which the
    // callback asked to stop.
    method ForAll(unlinks: set<Item>, stops: set<Item>) returns (ret: Item?, ghost n: nat)
      requires Valid()
      modifies this, ItemSet()
      ensures Valid() && n <= |old(items)|
      ensures items == Kept(old(items)[..n], unlinks) + old(items)[n..]
      ensures ret == null ==> n == |old(items)| && Passed(old(items), n, stops)
      ensures ret != null ==> 0 < n && ret == old(items)[n - 1] && ret in stops && Passed(old(items), n - 1, stops)
    {
      ghost var at;
      ret, n, at := WalkFrom(head, unlinks, stops, items, ItemSet());
    }

    // The loop of q_forall; it ends before item `at`, or where it was stopped.
    method WalkFrom(first: Item?, unlinks: set<Item>, stops: set<Item>, ghost was: seq<Item>, ghost all: set<Item>)
      returns (ret: Item?, ghost n: nat, ghost at: Item?)
      requires Walking(was, 0, first, unlinks, all)
      modifies this, all
      ensures Walking(was, n, at, unlinks, all) && n <= |was|
      ensures ret == null ==> at == null && Passed(was, n, stops)
      ensures ret != null ==> 0 < n && ret == was[n - 1] && ret in stops && Passed(was, n - 1, stops)
    {
      ret := null;
      n := 0;
      var it := first;
      at := it;
      while it != null
        invariant Walking(was, n, it, unlinks, all) && at == it
        invariant ret == null && n <= |was| && Passed(was, n, stops)
        decreases |was| - n
      {
        it, ret := Visit(it, unlinks, stops, was, n, all);
        at, n := it, n + 1;
        if ret != null {
          break;
        }
        PassedOneMore(was, n - 1, stops);
      }
    }

    // One turn of the walk: the link is read before the callback runs.
    method Visit(it: Item, unlinks: set<Item>, stops: set<Item>, ghost was: seq<Item>, ghost n: nat,
                 ghost all: set<Item>)
      returns (next: Item?, ret: Item?)
      requires Walking(was, n, it, unlinks, all)
      modifies this, all
      ensures n < |was| && (if was[n] in stops then ret == was[n] && ret in stops else ret == null)
      ensures Walking(was, n + 1, next, unlinks, all)
    {
      ghost var k := |Kept(was[..n], unlinks)|;
      KeptOneMore(was, n, unlinks);
      assert items[k] == it;
      assert items[k].next == it.next;
      next := it.next;
      ret := Callback(it, unlinks, stops, k, all);
    }
  }

  // The callback asked to stop at none of the first n items.
  ghost predicate Passed(s: seq<Item>, n: nat, stops: set<Item>)
    requires n <= |s|
  {
    forall i | 0 <= i < n :: s[i] !in stops
  }

  lemma PassedOneMore(s: seq<Item>, n: nat, stops: set<Item>)
    requires n < |s| && Passed(s, n, stops) && s[n] !in stops
    ensures Passed(s, n + 1, stops)
  {
  }

  // The items of a stretch that are not unlinked.
  ghost function Kept(s: seq<Item>, unlinks: set<Item>): seq<Item> {
    if s == [] then []
    else
      var rest := Kept(s[..|s| - 1], unlinks);
      if s[|s| - 1] in unlinks then rest else rest + [s[|s| - 1]]
  }

  lemma KeptOneMore(was: seq<Item>, n: nat, unlinks: set<Item>)
    requires n < |was|
    ensures var k := |Kept(was[..n], unlinks)|;
            var now := Kept(was[..n], unlinks) + was[n..];
            var then' := Kept(was[..n + 1], unlinks) + was[n + 1..];
            && k < |now| && now[k] == was[n]
            && (k + 1 < |now| <==> n + 1 < |was|)
            && (n + 1 < |was| ==> now[k + 1] == was[n + 1])
            && then' == if was[n] in unlinks then Common.Remove(now, k) else now
  {
    assert was[..n + 1][..n] == was[..n];
  }
}
