/**
 * cJSON items on the heap: children hang from `child` and are linked both ways
 * through `next` and `prev`, with NULL at both ends.
 */
module JsonSiblings {
  import opened Common

  class Item {
    var next: Item?
    var prev: Item?
    var child: Item?
    var kind: nat
    var number: real
    var text: Option<string>
    var name: Option<string>
    var isReference: bool
    var nameIsConst: bool

    /** `cJSON_New_Item`: everything zero. */
    constructor ()
      ensures next == prev == child == null && text == name == None && !isReference && !nameIsConst
    {
      next, prev, child, kind, number, text, name := null, null, null, 0, 0.0, None, None;
      isReference, nameIsConst := false, false;
    }
  }

  /** The item at position `i`, NULL outside. */
  function Seat(q: seq<Item>, i: int): Item? { if 0 <= i < |q| then q[i] else null }

  ghost predicate Joined(a: Item?, b: Item?)
    reads a, b
  {
    (a != null ==> a.next == b) && (b != null ==> b.prev == a)
  }

  /** The siblings `q`, from `first` on: `next` and `prev` are inverse to each other and end in NULL. */
  ghost predicate Siblings(first: Item?, q: seq<Item>)
    reads q
  {
    && first == Seat(q, 0) && Distinct(q)
    && forall i :: 0 <= i <= |q| ==> Joined(Seat(q, i - 1), Seat(q, i))
  }

  lemma Neighbours(first: Item?, q: seq<Item>, k: nat)
    requires Siblings(first, q) && k < |q|
    ensures q[k].next == Seat(q, k + 1) && q[k].prev == Seat(q, k - 1)
  {
    assert Joined(Seat(q, k - 1), Seat(q, k));
    assert Joined(Seat(q, k + 1 - 1), Seat(q, k + 1));
  }

  /** An index as the edits take it: negative counts as 0, too large as the end. */
  function Clamp(which: int, n: nat): (k: nat)
    ensures k <= n
  {
    if which <= 0 then 0 else if which < n then which else n
  }

  // ----- reading

  /** `while (c && which > 0) c = c->next, which--;` */
  method Seek(first: Item?, which: int, ghost q: seq<Item>) returns (c: Item?)
    requires Siblings(first, q)
    ensures c == Seat(q, Clamp(which, |q|))
  {
    c := first;
    var w := which;
    ghost var k := 0;
    while c != null && w > 0
      invariant k <= |q| && c == Seat(q, k)
      invariant (k == 0 && w == which) || (k > 0 && w == which - k && w >= 0)
      decreases |q| - k
    {
      Neighbours(first, q, k);
      c, w := c.next, w - 1;
      k := k + 1;
    }
  }

  /** `cJSON_GetArraySize` */
  method GetArraySize(parent: Item, ghost q: seq<Item>) returns (i: nat)
    requires Siblings(parent.child, q)
    ensures i == |q|
  {
    var c := parent.child;
    i := 0;
    while c != null
      invariant i <= |q| && c == Seat(q, i)
      decreases |q| - i
    {
      Neighbours(parent.child, q, i);
      i, c := i + 1, c.next;
    }
  }

  /** `cJSON_GetArrayItem` */
  method GetArrayItem(parent: Item, item: int, ghost q: seq<Item>) returns (c: Item?)
    requires Siblings(parent.child, q)
    ensures c == Seat(q, Clamp(item, |q|))
  {
    c := Seek(parent.child, item, q);
  }

  // ----- editing

  ghost predicate Detached(item: Item)
    reads item
  {
    item.next == null && item.prev == null
  }

  /** `cJSON_AddItemToArray` */
  method AddItemToArray(parent: Item, item: Item?, ghost q: seq<Item>)
    requires Siblings(parent.child, q) && (item != null ==> item !in q && Detached(item))
    modifies parent`child, q`next, {item}`prev
    ensures Siblings(parent.child, if item == null then q else q + [item])
  {
    if item == null { return; }
    var c := parent.child;
    if c == null {
      parent.child := item;
      assert Joined(Seat([item], -1), Seat([item], 0));
    } else {
      c := LastOf(c, q);
      Suffix(c, item, q);
    }
  }

  /** `while (c && c->next) c = c->next;` */
  method LastOf(first: Item, ghost q: seq<Item>) returns (c: Item)
    requires Siblings(first, q)
    ensures q != [] && c == q[|q| - 1]
  {
    c := first;
    ghost var k := 0;
    Neighbours(first, q, 0);
    while c.next != null
      invariant k < |q| && c == q[k] && c.next == Seat(q, k + 1)
      decreases |q| - k
    {
      c := c.next;
      k := k + 1;
      Neighbours(first, q, k);
    }
  }

  /** `suffix_object` */
  method Suffix(prev: Item, item: Item, ghost q: seq<Item>)
    requires q != [] && Siblings(q[0], q) && prev == q[|q| - 1] && item !in q && item.next == null
    modifies prev`next, item`prev
    ensures Siblings(q[0], q + [item])
  {
    prev.next := item;
    item.prev := prev;
    ghost var r := q + [item];
    forall i | 0 <= i <= |r| ensures Joined(Seat(r, i - 1), Seat(r, i)) {
      if i < |q| { assert old(Joined(Seat(q, i - 1), Seat(q, i))); }
    }
  }

  method Unlink(parent: Item, c: Item, ghost q: seq<Item>, ghost k: nat)
    requires Siblings(parent.child, q) && k < |q| && c == q[k]
    modifies parent`child, {c.prev}`next, {c.next}`prev, c`next, c`prev
    ensures Detached(c) && Siblings(parent.child, RemoveAt(q, k))
  {
    Neighbours(parent.child, q, k);
    if c.prev != null { c.prev.next := c.next; }
    if c.next != null { c.next.prev := c.prev; }
    if c == parent.child { parent.child := c.next; }
    c.prev, c.next := null, null;
    ghost var r := RemoveAt(q, k);
    forall i | 0 <= i <= |r| ensures Joined(Seat(r, i - 1), Seat(r, i)) {
      if i < k {
        assert old(Joined(Seat(q, i - 1), Seat(q, i)));
      } else if i > k {
        assert old(Joined(Seat(q, i + 1 - 1), Seat(q, i + 1)));
      }
    }
  }

  /** `cJSON_DetachItemFromArray` */
  method DetachItemFromArray(parent: Item, which: int, ghost q: seq<Item>) returns (c: Item?)
    requires Siblings(parent.child, q)
    modifies parent`child, q`next, q`prev
    ensures c == Seat(q, Clamp(which, |q|))
    ensures c == null ==> Siblings(parent.child, q)
    ensures c != null ==> Detached(c) && Siblings(parent.child, RemoveAt(q, Clamp(which, |q|)))
  {
    c := Seek(parent.child, which, q);
    if c != null {
      Neighbours(parent.child, q, Clamp(which, |q|));
      Unlink(parent, c, q, Clamp(which, |q|));
    }
  }

  method LinkBefore(parent: Item, c: Item, item: Item, ghost q: seq<Item>, ghost k: nat)
    requires Siblings(parent.child, q) && k < |q| && c == q[k] && item !in q
    modifies parent`child, {c.prev}`next, c`prev, item`next, item`prev
    ensures Siblings(parent.child, InsertAt(q, k, item))
  {
    Neighbours(parent.child, q, k);
    item.next := c;
    item.prev := c.prev;
    c.prev := item;
    if c == parent.child { parent.child := item; } else { item.prev.next := item; }
    ghost var r := InsertAt(q, k, item);
    assert forall i :: 0 <= i < |r| ==> r[i] == if i < k then q[i] else if i == k then item else q[i - 1];
    forall i | 0 <= i <= |r| ensures Joined(Seat(r, i - 1), Seat(r, i)) {
      if i < k {
        assert old(Joined(Seat(q, i - 1), Seat(q, i)));
      } else if i > k + 1 {
        assert old(Joined(Seat(q, i - 1 - 1), Seat(q, i - 1)));
      }
    }
  }

  /** `cJSON_InsertItemInArray`: past the end it appends. */
  method InsertItemInArray(parent: Item, which: int, item: Item, ghost q: seq<Item>)
    requires Siblings(parent.child, q) && item !in q && Detached(item)
    modifies parent`child, q`next, q`prev, item`next, item`prev
    ensures Siblings(parent.child, InsertAt(q, Clamp(which, |q|), item))
  {
    var c := Seek(parent.child, which, q);
    if c == null {
      AddItemToArray(parent, item, q);
      assert InsertAt(q, |q|, item) == q + [item];
    } else {
      Neighbours(parent.child, q, Clamp(which, |q|));
      LinkBefore(parent, c, item, q, Clamp(which, |q|));
    }
  }

  method Swap(parent: Item, c: Item, item: Item, ghost q: seq<Item>, ghost k: nat)
    requires Siblings(parent.child, q) && k < |q| && c == q[k] && item !in q
    modifies parent`child, {c.prev}`next, {c.next}`prev, c`next, c`prev, item`next, item`prev
    ensures Detached(c) && Siblings(parent.child, q[k := item])
  {
    Neighbours(parent.child, q, k);
    item.next := c.next;
    item.prev := c.prev;
    if item.next != null { item.next.prev := item; }
    if c == parent.child { parent.child := item; } else { item.prev.next := item; }
    c.next, c.prev := null, null;
    ghost var r := q[k := item];
    forall i | 0 <= i <= |r| ensures Joined(Seat(r, i - 1), Seat(r, i)) {
      assert old(Joined(Seat(q, i - 1), Seat(q, i)));
    }
  }

  /** `cJSON_ReplaceItemInArray` up to the deletion of the item it took out; past the end it does nothing. */
  method ReplaceItemInArray(parent: Item, which: int, item: Item, ghost q: seq<Item>) returns (c: Item?)
    requires Siblings(parent.child, q) && item !in q
    modifies parent`child, q`next, q`prev, item`next, item`prev
    ensures c == Seat(q, Clamp(which, |q|))
    ensures c == null ==> Siblings(parent.child, q) && item.next == old(item.next) && item.prev == old(item.prev)
    ensures c != null ==> Detached(c) && Siblings(parent.child, q[Clamp(which, |q|) := item])
  {
    c := Seek(parent.child, which, q);
    if c != null {
      Neighbours(parent.child, q, Clamp(which, |q|));
      Swap(parent, c, item, q, Clamp(which, |q|));
    }
  }
}
