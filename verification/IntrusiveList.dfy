/** The doubly linked list of list.h, its links kept inside the items. */
module IntrusiveList {
  import opened Common

  class Item<T> {
    const data: T
    var next: Item?<T>
    var prev: Item?<T>

    constructor (data: T)
      ensures this.data == data
    {
      this.data := data;
      next, prev := null, null;
    }
  }

  /** The item at position i, or null outside. */
  ghost function At<T>(items: seq<Item<T>>, i: int): Item?<T> {
    if 0 <= i < |items| then items[i] else null
  }

  ghost predicate Distinct<T>(items: seq<Item<T>>) {
    forall i, j :: 0 <= i < j < |items| ==> items[i] != items[j]
  }

  /** Read forwards and backwards, the links give the sequence. */
  ghost predicate Linked<T>(items: seq<Item<T>>)
    reads items
  {
    forall i :: 0 <= i < |items| ==> items[i].next == At(items, i + 1) && items[i].prev == At(items, i - 1)
  }

  /** The links lead past item k. */
  ghost predicate Skips<T>(s: seq<Item<T>>, k: nat)
    requires k < |s|
    reads s
  {
    forall i :: 0 <= i < |s| && i != k ==>
      && s[i].next == (if i == k - 1 then At(s, k + 1) else At(s, i + 1))
      && s[i].prev == if i == k + 1 then At(s, k - 1) else At(s, i - 1)
  }

  ghost function Without<T>(s: seq<Item<T>>, k: nat): seq<Item<T>>
    requires k < |s|
  {
    s[..k] + s[k + 1..]
  }

  lemma {:induction false} WithoutAt<T>(s: seq<Item<T>>, k: nat, i: int)
    requires k < |s|
    ensures At(Without(s, k), i) == At(s, if i < k then i else i + 1)
  {
  }

  lemma {:induction false} SkipsLinked<T>(s: seq<Item<T>>, k: nat)
    requires k < |s| && Distinct(s) && Skips(s, k)
    ensures Distinct(Without(s, k)) && Linked(Without(s, k))
  {
    hide Without; hide At;
    var t := Without(s, k);
    assert |t| == |s| - 1 && forall i :: 0 <= i < |t| ==> t[i] == s[if i < k then i else i + 1] by {
      WithoutLength(s, k);
    }
    forall i | 0 <= i < |t| ensures t[i].next == At(t, i + 1) && t[i].prev == At(t, i - 1) {
      WithoutAt(s, k, i + 1);
      WithoutAt(s, k, i - 1);
    }
  }

  lemma {:induction false} WithoutLength<T>(s: seq<Item<T>>, k: nat)
    requires k < |s|
    ensures var t := Without(s, k); |t| == |s| - 1 && forall i :: 0 <= i < |t| ==> t[i] == s[if i < k then i else i + 1]
  {
  }

  /** The links lead from item k to x and on. */
  ghost predicate Spliced<T>(s: seq<Item<T>>, k: nat, x: Item<T>)
    requires k < |s|
    reads s, x
  {
    && x.prev == s[k] && x.next == At(s, k + 1)
    && forall i :: 0 <= i < |s| ==>
       && s[i].next == (if i == k then x else At(s, i + 1))
       && s[i].prev == if i == k + 1 then x else At(s, i - 1)
  }

  ghost function With<T>(s: seq<Item<T>>, k: nat, x: Item<T>): seq<Item<T>>
    requires k < |s|
  {
    s[..k + 1] + [x] + s[k + 1..]
  }

  lemma {:induction false} SplicedLinked<T>(s: seq<Item<T>>, k: nat, x: Item<T>)
    requires k < |s| && Distinct(s) && x !in s && Spliced(s, k, x)
    ensures Distinct(With(s, k, x)) && Linked(With(s, k, x))
  {
    hide With; hide At;
    var t := With(s, k, x);
    WithLength(s, k, x);
    forall i | 0 <= i < |t| ensures t[i].next == At(t, i + 1) && t[i].prev == At(t, i - 1) {
      WithAt(s, k, x, i);
      WithAt(s, k, x, i + 1);
      WithAt(s, k, x, i - 1);
      AtIs(t, i);
      var j := if i <= k then i else i - 1;
      AtIs(s, j);
      AtIs(s, j + 1);
      AtIs(s, j - 1);
    }
    forall i, j | 0 <= i < j < |t| ensures t[i] != t[j] {
      WithAt(s, k, x, i);
      WithAt(s, k, x, j);
      AtIs(t, i);
      AtIs(t, j);
      AtIs(s, if i <= k then i else i - 1);
      AtIs(s, if j <= k then j else j - 1);
    }
  }

  lemma {:induction false} WithAt<T>(s: seq<Item<T>>, k: nat, x: Item<T>, i: int)
    requires k < |s|
    ensures At(With(s, k, x), i) == if i <= k then At(s, i) else if i == k + 1 then x else At(s, i - 1)
  {
  }

  lemma {:induction false} WithLength<T>(s: seq<Item<T>>, k: nat, x: Item<T>)
    requires k < |s|
    ensures |With(s, k, x)| == |s| + 1
  {
  }

  lemma {:induction false} AtIs<T>(s: seq<Item<T>>, i: int)
    ensures At(s, i) == if 0 <= i < |s| then s[i] else null
  {
  }

  lemma {:induction false} WithEnds<T>(s: seq<Item<T>>, k: nat, x: Item<T>)
    requires k < |s|
    ensures var t := With(s, k, x);
      && t == s[..k + 1] + [x] + s[k + 1..] && At(t, 0) == At(s, 0)
      && At(t, |t| - 1) == if k == |s| - 1 then x else At(s, |s| - 1)
  {
  }

  lemma {:induction false} WithoutEnds<T>(s: seq<Item<T>>, k: nat)
    requires k < |s|
    ensures var t := Without(s, k);
      && t == s[..k] + s[k + 1..] && At(t, 0) == At(s, if k == 0 then 1 else 0)
      && At(t, |t| - 1) == if k == |s| - 1 then At(s, |s| - 2) else At(s, |s| - 1)
  {
  }

  class List<T> {
    var head: Item?<T>
    var tail: Item?<T>
    ghost var items: seq<Item<T>>

    ghost predicate Valid()
      reads this, items
    {
      && Distinct(items) && Linked(items)
      && head == At(items, 0) && tail == At(items, |items| - 1)
    }

    /** list_init */
    constructor ()
      ensures Valid() && items == []
    {
      head, tail, items := null, null, [];
    }

    /** list_append */
    method Append(item: Item<T>)
      requires Valid() && item !in items
      modifies this, item, tail
      ensures Valid() && items == old(items) + [item]
    {
      hide With; hide At;
      ghost var s := items;
      AtIs(s, 0);
      AtIs(s, |s| - 1);
      AtIs(s, |s|);
      AtIs([item], 0);
      AtIs([item], 1);
      AtIs([item], -1);
      item.next := null;
      item.prev := tail;
      if tail != null {
        tail.next := item;
        assert Spliced(s, |s| - 1, item);
        SplicedLinked(s, |s| - 1, item);
        WithEnds(s, |s| - 1, item);
        assert s[..|s|] + [item] + s[|s|..] == s + [item];
      } else {
        head := item;
        assert s + [item] == [item];
      }
      tail := item;
      items := s + [item];
    }

    /** list_insert behind an item of the list */
    method InsertAfter(after: Item<T>, item: Item<T>, ghost k: nat)
      requires Valid() && item !in items && k < |items| && items[k] == after
      modifies this, item, after, after.next
      ensures Valid() && items == old(items)[..k + 1] + [item] + old(items)[k + 1..]
    {
      hide With; hide At;
      ghost var s := items;
      AtIs(s, k + 1);
      AtIs(s, |s| - 1);
      item.prev := after;
      item.next := after.next;
      after.next := item;
      if item.next != null {
        item.next.prev := item;
      }
      if tail == after {
        tail := item;
      }
      assert Spliced(s, k, item);
      SplicedLinked(s, k, item);
      items := With(s, k, item);
      WithEnds(s, k, item);
    }

    /** list_remove of an item of the list */
    method Remove(item: Item<T>, ghost k: nat)
      requires Valid() && k < |items| && items[k] == item
      modifies this, item, item.next, item.prev
      ensures Valid() && items == old(items)[..k] + old(items)[k + 1..]
      ensures item.next == item.prev == null
    {
      hide Without; hide At;
      ghost var s := items;
      AtIs(s, 0);
      AtIs(s, 1);
      AtIs(s, k - 1);
      AtIs(s, k + 1);
      AtIs(s, |s| - 1);
      if item.next != null {
        item.next.prev := item.prev;
      }
      if head == item {
        head := item.next;
        if head == null {
          tail := null;
        }
      } else {
        item.prev.next := item.next;
        if tail == item {
          tail := item.prev;
        }
      }
      item.prev, item.next := null, null;
      assert Skips(s, k);
      SkipsLinked(s, k);
      items := Without(s, k);
      WithoutEnds(s, k);
    }

    /** list_pop */
    method Pop() returns (item: Item?<T>)
      requires Valid()
      modifies this, items
      ensures Valid()
      ensures if old(items) == [] then item == null && items == [] else item == old(items[0]) && items == old(items)[1..]
    {
      hide At; hide Linked; hide Distinct;
      AtIs(items, 0);
      AtIs(items, 1);
      AtIs(items, -1);
      item := head;
      if item != null {
        NextOf(items, 0);
        Remove(item, 0);
      }
    }

    /** Item i of those before is next; those before it have been kept or dropped. */
    ghost predicate Midway(before: seq<Item<T>>, drop: Item<T> -> bool, i: nat, it: Item?<T>, all: set<Item<T>>)
      reads this, items
    {
      Valid() && it == At(before, i) && AllIn(items, all) && Standing(items, before, drop, i)
    }

    /** The body of a safe iteration: note what follows, then perhaps remove the item. */
    method Visit(it: Item<T>, drop: Item<T> -> bool, ghost before: seq<Item<T>>, ghost i: nat, ghost all: set<Item<T>>)
      returns (backup: Item?<T>)
      requires Midway(before, drop, i, it, all)
      modifies this, all
      ensures i < |before| && Midway(before, drop, i + 1, backup, all)
    {
      hide Linked; hide Distinct; hide At; hide Kept; hide Standing;
      AtIs(before, i);
      ghost var k := |Kept(before[..i], drop)|;
      Position(items, before, drop, i);
      NextOf(items, k);
      AtIs(items, k + 1);
      AtIs(items, k - 1);
      backup := it.next;
      if drop(it) {
        Remove(it, k);
      }
    }

    /** list_for_each_safe with a body that removes items, as DEL_CLIENT and DEL_LOOKUP use it:
        exactly the items not to be dropped stay, in their order. */
    method RemoveMatching(drop: Item<T> -> bool)
      requires Valid()
      modifies this, items
      ensures Valid() && items == Kept(old(items), drop)
    {
      hide List.Midway; hide List.Valid; hide Kept;
      ghost var before := items;
      ghost var all := set x | x in items;
      Begins(drop);
      ghost var i := 0;
      var it := head;
      while it != null
        invariant 0 <= i <= |before| && Midway(before, drop, i, it, all)
        decreases |before| - i
      {
        it := Visit(it, drop, before, i, all);
        i := i + 1;
      }
      Ends(before, drop, i, all);
    }

    lemma {:induction false} Begins(drop: Item<T> -> bool)
      requires Valid()
      ensures Midway(items, drop, 0, head, set x | x in items)
    {
      Begun(items, drop);
      AllInSelf(items);
    }

    lemma {:induction false} Ends(before: seq<Item<T>>, drop: Item<T> -> bool, i: nat, all: set<Item<T>>)
      requires i <= |before| && Midway(before, drop, i, null, all)
      ensures Valid() && items == Kept(before, drop)
    {
      AtIs(before, i);
      Ended(items, before, drop);
    }
  }

  ghost predicate AllIn<T>(items: seq<Item<T>>, all: set<Item<T>>) {
    forall i :: 0 <= i < |items| ==> items[i] in all
  }

  lemma {:induction false} AllInSelf<T>(items: seq<Item<T>>)
    ensures AllIn(items, set x | x in items)
  {
  }

  /** After i items: those kept so far, then the others. */
  ghost predicate Standing<T>(items: seq<Item<T>>, before: seq<Item<T>>, drop: Item<T> -> bool, i: nat) {
    i <= |before| && items == Kept(before[..i], drop) + before[i..]
  }

  lemma {:induction false} Begun<T>(before: seq<Item<T>>, drop: Item<T> -> bool)
    ensures Standing(before, before, drop, 0)
  {
  }

  lemma {:induction false} Ended<T>(items: seq<Item<T>>, before: seq<Item<T>>, drop: Item<T> -> bool)
    requires Standing(items, before, drop, |before|)
    ensures items == Kept(before, drop)
  {
    assert before[..|before|] == before;
  }

  /** Where the next item stands, and how the iteration goes on from it. */
  lemma {:induction false} Position<T>(items: seq<Item<T>>, before: seq<Item<T>>, drop: Item<T> -> bool, i: nat)
    requires i < |before| && Standing(items, before, drop, i)
    ensures var k := |Kept(before[..i], drop)|;
      && k < |items| && items[k] == before[i] && At(items, k + 1) == At(before, i + 1)
      && Standing(if drop(before[i]) then items[..k] + items[k + 1..] else items, before, drop, i + 1)
  {
    hide Kept;
    KeptNext(before, drop, i);
  }

  lemma {:induction false} NextOf<T>(items: seq<Item<T>>, k: nat)
    requires k < |items| && Linked(items)
    ensures items[k].next == At(items, k + 1) && items[k].prev == At(items, k - 1)
  {
  }
}
