/** `cJSON_Delete`, and what becomes of the names of duplicated items. */
module JsonDelete {
  import opened Common
  import opened JsonSiblings
  import opened JsonTree

  /** What happens to memory: an item is read, or a block (value string, name, item) is handed to `cJSON_free`. */
  datatype Event = ReadNode(item: Item) | FreeText(item: Item) | FreeName(item: Item) | FreeNode(item: Item)

  /** The strings an item owns, and the item; a constant name is not owned. */
  function OwnBlocks(x: Item): seq<Event>
    reads x
  {
    (if x.text.Some? then [FreeText(x)] else []) +
    ((if x.name.Some? && !x.nameIsConst then [FreeName(x)] else []) + [FreeNode(x)])
  }

  /** An item is read before its children are deleted and again after, and then freed. */
  ghost function Released(t: Tree): seq<Event>
    reads t.node, AllNodes(t.kids)
    decreases t, 1
  {
    [ReadNode(t.node)] + (ReleasedAll(t.kids) + ([ReadNode(t.node)] + OwnBlocks(t.node)))
  }

  ghost function ReleasedAll(ts: seq<Tree>): seq<Event>
    reads AllNodes(ts)
    decreases ts, 0
  {
    Inside(ts);
    if ts == [] then [] else ReleasedAll(ts[..|ts| - 1]) + Released(ts[|ts| - 1])
  }

  // ----- exactly once, and nothing afterwards

  /** The blocks that belong to the items of a set. */
  ghost predicate Owed(xs: set<Item>, e: Event)
    reads xs
  {
    && e.item in xs
    && (e.FreeText? ==> e.item.text.Some?)
    && (e.FreeName? ==> e.item.name.Some? && !e.item.nameIsConst)
  }

  /** Everything `x` owns is freed. */
  ghost predicate Settled(es: seq<Event>, x: Item)
    reads x
  {
    && FreeNode(x) in es && (x.text.Some? ==> FreeText(x) in es)
    && (x.name.Some? && !x.nameIsConst ==> FreeName(x) in es)
  }

  /** No block is freed twice, and nothing happens to an item once it is freed. */
  ghost predicate Safe(es: seq<Event>) {
    forall i, j :: 0 <= i < j < |es| ==>
      (es[i] == es[j] ==> es[i].ReadNode?) && (es[i].FreeNode? ==> es[j].item != es[i].item)
  }

  /** Exactly the blocks owed, each once, and nothing read afterwards. */
  ghost predicate Exact(es: seq<Event>, xs: set<Item>)
    reads xs
  {
    && Safe(es) && (forall e :: e in es ==> Owed(xs, e))
    && (forall x :: x in xs ==> Settled(es, x))
  }

  lemma SafeJoin(a: seq<Event>, b: seq<Event>)
    requires Safe(a) && Safe(b)
    requires forall i, j :: 0 <= i < |a| && 0 <= j < |b| ==>
               (a[i] == b[j] ==> a[i].ReadNode?) && (a[i].FreeNode? ==> b[j].item != a[i].item)
    ensures Safe(a + b)
  {
  }

  lemma ExactJoin(a: seq<Event>, b: seq<Event>, xs: set<Item>, ys: set<Item>)
    requires Exact(a, xs) && Exact(b, ys) && xs !! ys
    ensures Exact(a + b, xs + ys)
  {
    forall i, j | 0 <= i < |a| && 0 <= j < |b| ensures a[i].item != b[j].item {
      assert a[i] in a && b[j] in b;
    }
    SafeJoin(a, b);
    forall x | x in xs + ys ensures Settled(a + b, x) {
      assert if x in xs then Settled(a, x) else Settled(b, x);
    }
  }

  /** Reading first does no harm. */
  lemma ExactRead(x: Item, es: seq<Event>, xs: set<Item>)
    requires Exact(es, xs) && x in xs
    ensures Exact([ReadNode(x)] + es, xs)
  {
    SafeJoin([ReadNode(x)], es);
    forall y | y in xs ensures Settled([ReadNode(x)] + es, y) { assert Settled(es, y); }
  }

  lemma OwnExact(x: Item)
    ensures Exact(OwnBlocks(x), {x})
  {
  }

  /** Deleting a tree frees every block its items own, each of them exactly once, and reads nothing it has freed. */
  lemma {:induction false} ReleasedExact(t: Tree)
    requires Rooted(t)
    ensures Exact(Released(t), Nodes(t))
    decreases t, 1
  {
    var x, below, ys := t.node, ReleasedAll(t.kids), AllNodes(t.kids);
    ReleasedAllExact(t.kids);
    OwnExact(x);
    ExactRead(x, OwnBlocks(x), {x});
    ExactJoin(below, [ReadNode(x)] + OwnBlocks(x), ys, {x});
    ExactRead(x, below + ([ReadNode(x)] + OwnBlocks(x)), ys + {x});
    assert Nodes(t) == ys + {x};
  }

  lemma {:induction false} ReleasedAllExact(ts: seq<Tree>)
    requires Apart(ts) && forall k :: k in ts ==> Rooted(k)
    ensures Exact(ReleasedAll(ts), AllNodes(ts))
    decreases ts, 0
  {
    if ts != [] {
      var init, last := ts[..|ts| - 1], ts[|ts| - 1];
      ReleasedAllExact(init);
      ReleasedExact(last);
      assert ts == init + [last];
      NodesMore(init, last);
      LastApart(ts);
      ExactJoin(ReleasedAll(init), Released(last), AllNodes(init), Nodes(last));
    }
  }

  lemma LastApart(ts: seq<Tree>)
    requires Apart(ts) && ts != []
    ensures AllNodes(ts[..|ts| - 1]) !! Nodes(ts[|ts| - 1])
  {
    var init := ts[..|ts| - 1];
    forall x | x in AllNodes(init) ensures x !in Nodes(ts[|ts| - 1]) {
      var k :| k in init && x in Nodes(k);
      var i :| 0 <= i < |init| && init[i] == k;
      assert ts[i] == k;
    }
  }

  /** Items not freed yet. */
  ghost predicate Alive(events: seq<Event>, xs: set<Item>) {
    forall e :: e in events ==> e.item !in xs
  }

  lemma SafeAfter(events: seq<Event>, more: seq<Event>, xs: set<Item>)
    requires Safe(events) && Alive(events, xs) && Exact(more, xs)
    ensures Safe(events + more)
  {
    forall i, j | 0 <= i < |events| && 0 <= j < |more| ensures events[i].item != more[j].item {
      assert events[i] in events && more[j] in more;
    }
    SafeJoin(events, more);
  }

  ghost predicate ReferenceFree(xs: set<Item>)
    reads xs
  {
    forall x :: x in xs ==> !x.isReference
  }

  // ----- the code

  method FreeOwn(events: seq<Event>, c: Item) returns (log: seq<Event>)
    requires !c.isReference
    ensures log == events + ([ReadNode(c)] + OwnBlocks(c))
  {
    log := events + [ReadNode(c)];
    if c.text.Some? { log := log + [FreeText(c)]; }
    if !c.nameIsConst && c.name.Some? { log := log + [FreeName(c)]; }
    log := log + [FreeNode(c)];
  }

  /** What deleting the trees hanging from `first` does, if they do hang from it and hold no reference. */
  ghost function Estate(first: Item?, ts: seq<Tree>): Option<seq<Event>>
    reads AllNodes(ts)
  {
    if Hanging(first, ts) && ReferenceFree(AllNodes(ts)) then Some(ReleasedAll(ts)) else None
  }

  lemma EstateBelow(t: Tree)
    requires Rooted(t) && ReferenceFree(Nodes(t))
    ensures Estate(t.node.child, t.kids) == Some(ReleasedAll(t.kids)) && !t.node.isReference
    ensures AllNodes(t.kids) <= Nodes(t) && t.node in Nodes(t) && t.node !in AllNodes(t.kids)
    ensures t.node.child == null ==> ReleasedAll(t.kids) == []
  {
    assert AllNodes(t.kids) <= Nodes(t);
    if t.node.child == null { assert |Roots(t.kids)| == 0; }
  }

  lemma ReleasedParts(events: seq<Event>, t: Tree)
    ensures events + [ReadNode(t.node)] + ReleasedAll(t.kids) + ([ReadNode(t.node)] + OwnBlocks(t.node)) == events + Released(t)
  {
  }

  /** One turn: the next sibling is remembered, then come the children, the strings, the item. */
  method DeleteOne(events: seq<Event>, c: Item, ghost t: Tree, ghost owned: set<Item>)
      returns (log: seq<Event>, next: Item?)
    requires Rooted(t) && t.node == c && ReferenceFree(Nodes(t)) && Nodes(t) <= owned
    ensures log == events + old(Released(t)) && next == old(c.next)
    decreases t, 1
  {
    log, next := events + [ReadNode(c)], c.next;
    EstateBelow(t);
    ReleasedParts(events, t);
    ghost var below, own := ReleasedAll(t.kids), OwnBlocks(c);
    assert log + [] == log;
    if !c.isReference && c.child != null {
      log := DeleteAll(log, c.child, t.kids, below, owned);
    }
    assert OwnBlocks(c) == own;
    log := FreeOwn(log, c);
  }

  method DeleteBeside(events: seq<Event>, c: Item, ghost t: Tree, ghost owned: set<Item>,
                      ghost first: Item?, ghost ts: seq<Tree>, ghost us: seq<Tree>)
      returns (log: seq<Event>, next: Item?)
    requires Rooted(t) && t.node == c && ReferenceFree(Nodes(t)) && Nodes(t) <= owned
    requires AllNodes(ts) <= owned && AllNodes(us) <= owned
    ensures log == events + old(Released(t)) && next == old(c.next)
    ensures Estate(first, ts) == old(Estate(first, ts)) && ReleasedAll(us) == old(ReleasedAll(us))
    decreases t, 2
  {
    log, next := DeleteOne(events, c, t, owned);
  }

  lemma TurnReady(first: Item?, ts: seq<Tree>, k: nat)
    requires Hanging(first, ts) && k < |ts|
    ensures Nodes(ts[k]) <= AllNodes(ts) && Rooted(ts[k]) && AllNodes(ts[..k + 1]) <= AllNodes(ts)
    ensures ts[k].node.next == Seat(Roots(ts), k + 1)
  {
    assert ts[k] in ts;
    Neighbours(first, Roots(ts), k);
  }

  lemma ReleasedMore(before: seq<Event>, ts: seq<Tree>, k: nat)
    requires k < |ts|
    ensures before + ReleasedAll(ts[..k]) + Released(ts[k]) == before + ReleasedAll(ts[..k + 1])
  {
    assert ts[..k + 1][..k] == ts[..k];
  }

  method DeleteTurn(events: seq<Event>, log: seq<Event>, c: Item, ghost first: Item?, ghost ts: seq<Tree>, ghost k: nat,
                    ghost rel: seq<Event>, ghost owned: set<Item>) returns (log': seq<Event>, next: Item?)
    requires Estate(first, ts) == Some(rel) && AllNodes(ts) <= owned
    requires k < |ts| && c == ts[k].node && log == events + ReleasedAll(ts[..k])
    ensures Estate(first, ts) == Some(rel) && next == Seat(Roots(ts), k + 1)
    ensures log' == events + ReleasedAll(ts[..k + 1])
    decreases ts, 0
  {
    TurnReady(first, ts, k);
    ReleasedMore(events, ts, k);
    log', next := DeleteBeside(log, c, ts[k], owned, first, ts, ts[..k + 1]);
  }

  /** The loop of `cJSON_Delete`; `events` is what happened before. */
  method DeleteAll(events: seq<Event>, first: Item?, ghost ts: seq<Tree>, ghost rel: seq<Event>, ghost owned: set<Item>)
      returns (log: seq<Event>)
    requires Estate(first, ts) == Some(rel) && AllNodes(ts) <= owned
    ensures log == events + rel
    decreases ts, 1
  {
    log := events;
    var c := first;
    ghost var k := 0;
    assert events + [] == events;
    while c != null
      invariant Estate(first, ts) == Some(rel) && k <= |ts| && c == Seat(Roots(ts), k)
      invariant log == events + ReleasedAll(ts[..k])
      decreases |ts| - k
    {
      log, c := DeleteTurn(events, log, c, first, ts, k, rel, owned);
      k := k + 1;
    }
    assert ts[..k] == ts;
  }

  /**
   * `cJSON_Delete` of trees without references: every block they own is freed exactly once,
   * nothing else is, and nothing is read or freed once it has been freed.
   */
  method Delete(events: seq<Event>, first: Item?, ghost ts: seq<Tree>, ghost owned: set<Item>) returns (log: seq<Event>)
    requires Hanging(first, ts) && ReferenceFree(AllNodes(ts)) && AllNodes(ts) <= owned
    requires Safe(events) && Alive(events, AllNodes(ts))
    ensures log == events + old(ReleasedAll(ts)) && Safe(log)
    ensures old(Exact(ReleasedAll(ts), AllNodes(ts)))
  {
    ghost var rel := ReleasedAll(ts);
    ReleasedAllExact(ts);
    SafeAfter(events, rel, AllNodes(ts));
    log := DeleteAll(events, first, ts, rel, owned);
  }
}
