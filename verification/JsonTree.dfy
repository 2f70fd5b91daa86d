/** Whole trees of cJSON items: `cJSON_Duplicate` and `cJSON_Delete`. */
module JsonTree {
  import opened Common
  import opened JsonSiblings

  /** An item with the trees of its children. */
  datatype Tree = Tree(node: Item, kids: seq<Tree>)

  ghost function Nodes(t: Tree): set<Item>
    decreases t
  {
    {t.node} + set k, x | k in t.kids && x in Nodes(k) :: x
  }

  ghost function AllNodes(ts: seq<Tree>): set<Item> { set k, x | k in ts && x in Nodes(k) :: x }

  function Roots(ts: seq<Tree>): (q: seq<Item>)
    ensures |q| == |ts| && forall i :: 0 <= i < |ts| ==> q[i] == ts[i].node
  {
    seq(|ts|, i requires 0 <= i < |ts| => ts[i].node)
  }

  /** No item belongs to two of the trees. */
  ghost predicate Apart(ts: seq<Tree>) {
    forall i, j :: 0 <= i < j < |ts| ==> Nodes(ts[i]) !! Nodes(ts[j])
  }

  lemma Inside(ts: seq<Tree>)
    ensures forall k :: k in ts ==> k.node in AllNodes(ts) && AllNodes(k.kids) <= AllNodes(ts)
    ensures forall x :: x in Roots(ts) ==> x in AllNodes(ts)
  {
    forall k | k in ts ensures k.node in AllNodes(ts) && AllNodes(k.kids) <= AllNodes(ts) {
      assert k.node in Nodes(k) && AllNodes(k.kids) <= Nodes(k);
    }
    forall x | x in Roots(ts) ensures x in AllNodes(ts) {
      var i :| 0 <= i < |ts| && Roots(ts)[i] == x;
      assert ts[i] in ts;
    }
  }

  /** The heap below `t.node` has the shape of `t`, and no item occurs twice. */
  ghost predicate Rooted(t: Tree)
    reads t.node`child, AllNodes(t.kids)
    decreases t
  {
    Inside(t.kids);
    && t.node !in AllNodes(t.kids) && Apart(t.kids)
    && Siblings(t.node.child, Roots(t.kids))
    && (forall k :: k in t.kids ==> Rooted(k))
  }

  /** The trees `ts` hang from `first`. */
  ghost predicate Hanging(first: Item?, ts: seq<Tree>)
    reads AllNodes(ts)
  {
    Inside(ts);
    Apart(ts) && Siblings(first, Roots(ts)) && forall k :: k in ts ==> Rooted(k)
  }

  // ----- what a tree says

  datatype Doc = Doc(kind: nat, number: real, text: Option<string>, name: Option<string>, nameIsConst: bool,
                     reference: bool, kids: seq<Doc>)

  ghost function Content(t: Tree): Doc
    reads t.node`kind, t.node`number, t.node`text, t.node`name, t.node`nameIsConst, t.node`isReference, AllNodes(t.kids)
    decreases t, 1
  {
    Doc(t.node.kind, t.node.number, t.node.text, t.node.name, t.node.nameIsConst, t.node.isReference, Contents(t.kids))
  }

  ghost function Contents(ts: seq<Tree>): (ds: seq<Doc>)
    reads AllNodes(ts)
    ensures |ds| == |ts|
    decreases ts, 0
  {
    Inside(ts);
    if ts == [] then [] else Contents(ts[..|ts| - 1]) + [Content(ts[|ts| - 1])]
  }

  lemma {:induction false} ContentsAt(ts: seq<Tree>)
    ensures forall i :: 0 <= i < |ts| ==> Contents(ts)[i] == Content(ts[i])
  {
    if ts != [] { ContentsAt(ts[..|ts| - 1]); }
  }

  /** What the trees hanging from `first` say, if they do hang from it. */
  ghost function Says(first: Item?, ts: seq<Tree>): Option<seq<Doc>>
    reads AllNodes(ts)
  {
    if Hanging(first, ts) then Some(Contents(ts)) else None
  }

  /** The same document without reference flags. */
  function Stripped(d: Doc): Doc {
    d.(reference := false, kids := seq(|d.kids|, i requires 0 <= i < |d.kids| => Stripped(d.kids[i])))
  }

  function StrippedAll(ds: seq<Doc>): (r: seq<Doc>)
    ensures |r| == |ds| && forall i :: 0 <= i < |ds| ==> r[i] == Stripped(ds[i])
  {
    seq(|ds|, i requires 0 <= i < |ds| => Stripped(ds[i]))
  }

  lemma StrippedPrefix(ds: seq<Doc>, k: nat)
    requires k < |ds|
    ensures StrippedAll(ds)[..k + 1] == StrippedAll(ds)[..k] + [Stripped(ds[k])]
  {
    assert StrippedAll(ds)[k] == Stripped(ds[k]);
  }

  lemma StrippedIs(d: Doc, e: Doc)
    requires e == d.(reference := false, kids := e.kids) && e.kids == StrippedAll(d.kids)
    ensures e == Stripped(d)
  {
    assert Stripped(d).kids == StrippedAll(d.kids);
  }

  // ----- duplication

  /** A new item with the fields of `item`, except its links and the reference flag. */
  method CopyFields(item: Item) returns (copy: Item)
    ensures fresh(copy) && Detached(copy) && copy.child == null && !copy.isReference
    ensures copy.kind == item.kind && copy.number == item.number && copy.text == item.text
    ensures copy.name == item.name && copy.nameIsConst == item.nameIsConst
  {
    copy := new Item();
    copy.kind, copy.number, copy.text, copy.name := item.kind, item.number, item.text, item.name;
    copy.nameIsConst := item.nameIsConst;
  }

  lemma LastIsApart(first: Item?, us: seq<Tree>, k: Tree)
    requires Hanging(first, us) && us != [] && k in us
    ensures us[|us| - 1].node !in AllNodes(k.kids)
  {
    var last := us[|us| - 1];
    if k != last {
      var i :| 0 <= i < |us| && us[i] == k;
      assert last.node in Nodes(last) && AllNodes(k.kids) <= Nodes(k);
    } else {
      assert Rooted(k);
    }
  }

  /** Links that no tree of `ks` has below its root can be set without a change to it. */
  method SetNext(prev: Item, item: Item, ghost ks: set<Tree>)
    requires forall k :: k in ks ==> Rooted(k) && Beside(prev, k)
    modifies prev`next
    ensures prev.next == item
    ensures forall k :: k in ks ==> Rooted(k)
    ensures forall k :: k in ks ==> Content(k) == old(Content(k))
  {
    prev.next := item;
  }

  method SetPrev(item: Item, prev: Item, ghost ks: set<Tree>)
    requires forall k :: k in ks ==> Rooted(k) && Beside(item, k)
    modifies item`prev
    ensures item.prev == prev
    ensures forall k :: k in ks ==> Rooted(k)
    ensures forall k :: k in ks ==> Content(k) == old(Content(k))
  {
    item.prev := prev;
  }

  method SuffixBeside(prev: Item, item: Item, ghost q: seq<Item>, ghost ks: set<Tree>)
    requires q != [] && Siblings(q[0], q) && prev == q[|q| - 1] && item !in q && item.next == null
    requires forall k :: k in ks ==> Rooted(k) && Beside(prev, k) && Beside(item, k)
    modifies prev`next, item`prev
    ensures Siblings(q[0], q + [item])
    ensures forall k :: k in ks ==> Rooted(k)
    ensures forall k :: k in ks ==> Content(k) == old(Content(k))
  {
    SetNext(prev, item, ks);
    SetPrev(item, prev, ks);
    ghost var r := q + [item];
    forall i | 0 <= i <= |r| ensures Joined(Seat(r, i - 1), Seat(r, i)) {
      if i < |q| { assert old(Joined(Seat(q, i - 1), Seat(q, i))); }
    }
  }

  method SetChild(parent: Item, item: Item, ghost u: Tree)
    requires Rooted(u) && u.node == item && Detached(item) && parent !in Nodes(u)
    modifies parent`child
    ensures parent.child == item && Hanging(item, [u]) && Content(u) == old(Content(u))
  {
    assert AllNodes(u.kids) <= Nodes(u) && item in Nodes(u);
    parent.child := item;
    assert Joined(Seat([item], -1), Seat([item], 0));
    assert Roots([u]) == [item];
  }

  lemma HangingMore(first: Item?, us: seq<Tree>, u: Tree)
    requires Apart(us) && AllNodes(us) !! Nodes(u)
    requires Siblings(first, Roots(us) + [u.node]) && Rooted(u) && forall k :: k in us ==> Rooted(k)
    ensures Hanging(first, us + [u])
  {
    assert Roots(us + [u]) == Roots(us) + [u.node];
    forall i | 0 <= i < |us| ensures Nodes(us[i]) !! Nodes(u) {
      assert us[i] in us && Nodes(us[i]) <= AllNodes(us);
    }
  }

  ghost predicate Beside(x: Item, k: Tree) { x !in AllNodes(k.kids) }

  lemma NodeBeside(u: Tree, us: seq<Tree>, k: Tree)
    requires AllNodes(us) !! Nodes(u) && k in us
    ensures Beside(u.node, k) && Beside(k.node, u)
  {
    Inside(us);
    assert u.node in Nodes(u) && AllNodes(u.kids) <= Nodes(u);
  }

  lemma AllBeside(first: Item?, us: seq<Tree>, u: Tree, ks: set<Tree>)
    requires us != [] && Hanging(first, us) && Rooted(u) && AllNodes(us) !! Nodes(u)
    requires ks == (set k | k in us) + {u}
    ensures forall k :: k in ks ==> Rooted(k) && Beside(us[|us| - 1].node, k) && Beside(u.node, k)
  {
    forall k | k in ks ensures Rooted(k) && Beside(us[|us| - 1].node, k) && Beside(u.node, k) {
      if k in us {
        LastIsApart(first, us, k);
        NodeBeside(u, us, k);
      } else {
        NodeBeside(u, us, us[|us| - 1]);
        assert Rooted(u);
      }
    }
  }

  /** The loop's linking: as the first child, or after the last one. */
  method Attach(parent: Item, last: Item?, item: Item, ghost us: seq<Tree>, ghost u: Tree)
    requires Hanging(parent.child, us) && last == Seat(Roots(us), |us| - 1)
    requires Rooted(u) && u.node == item && Detached(item)
    requires AllNodes(us) !! Nodes(u) && parent !in AllNodes(us) && parent !in Nodes(u)
    modifies parent`child, {last}`next, item`prev
    ensures Hanging(parent.child, us + [u])
    ensures forall k :: k in us ==> Content(k) == old(Content(k))
    ensures Content(u) == old(Content(u))
  {
    if last == null {
      assert us == [] && us + [u] == [u];
      SetChild(parent, item, u);
    } else {
      AttachNext(last, item, parent.child, us, u);
    }
  }

  method AttachNext(last: Item, item: Item, ghost first: Item?, ghost us: seq<Tree>, ghost u: Tree)
    requires us != [] && Hanging(first, us) && last == us[|us| - 1].node
    requires Rooted(u) && u.node == item && Detached(item) && AllNodes(us) !! Nodes(u)
    modifies last`next, item`prev
    ensures Hanging(first, us + [u])
    ensures forall k :: k in us ==> Content(k) == old(Content(k))
    ensures Content(u) == old(Content(u))
  {
    ghost var ks := (set k | k in us) + {u};
    AllBeside(first, us, u, ks);
    Inside(us);
    assert item in Nodes(u);
    SuffixBeside(last, item, Roots(us), ks);
    HangingMore(first, us, u);
  }

  lemma SaysMore(first: Item?, us: seq<Tree>, u: Tree, docs: seq<Doc>)
    requires Hanging(first, us + [u]) && |docs| == |us| && forall i :: 0 <= i < |us| ==> Content(us[i]) == docs[i]
    ensures Says(first, us + [u]) == Some(docs + [Content(u)])
  {
    ContentsAt(us + [u]);
    assert Contents(us + [u]) == docs + [Content(u)];
  }

  /** The copies made so far, and one more. */
  method AttachCopy(copy: Item, nptr: Item?, item: Item, ghost us: seq<Tree>, ghost u: Tree, ghost docs: seq<Doc>)
    requires Says(copy.child, us) == Some(docs) && nptr == Seat(Roots(us), |us| - 1)
    requires Rooted(u) && u.node == item && Detached(item)
    requires AllNodes(us) !! Nodes(u) && copy !in AllNodes(us) && copy !in Nodes(u)
    modifies copy`child, {nptr}`next, item`prev
    ensures Says(copy.child, us + [u]) == Some(docs + [old(Content(u))])
  {
    ContentsAt(us);
    assert forall i :: 0 <= i < |us| ==> us[i] in us && Content(us[i]) == docs[i];
    Attach(copy, nptr, item, us, u);
    forall i | 0 <= i < |us| ensures Content(us[i]) == docs[i] { assert us[i] in us; }
    SaysMore(copy.child, us, u, docs);
  }

  lemma ChildAt(first: Item?, ts: seq<Tree>, docs: seq<Doc>, k: nat)
    requires Says(first, ts) == Some(docs) && k < |ts|
    ensures Rooted(ts[k]) && Content(ts[k]) == docs[k] && Nodes(ts[k]) <= AllNodes(ts)
    ensures ts[k].node.next == Seat(Roots(ts), k + 1)
  {
    assert ts[k] in ts;
    ContentsAt(ts);
    Neighbours(first, Roots(ts), k);
  }

  /** A child is copied and linked behind the last copy. */
  method CopyChild(copy: Item, cptr: Item, nptr: Item?, ghost t: Tree, ghost us: seq<Tree>, ghost docs: seq<Doc>,
                   ghost owned: set<Item>, ghost made: set<Item>) returns (nptr': Item, ghost u: Tree)
    requires Rooted(t) && cptr == t.node && Nodes(t) <= owned
    requires Says(copy.child, us) == Some(docs) && nptr == Seat(Roots(us), |us| - 1)
    requires AllNodes(us) <= made && copy !in owned && copy !in made
    modifies copy`child, {nptr}`next
    ensures nptr' == u.node && fresh(Nodes(u))
    ensures Says(copy.child, us + [u]) == Some(docs + [Stripped(old(Content(t)))])
    decreases t, 1
  {
    nptr', u := Duplicate(cptr, true, t, owned);
    AttachCopy(copy, nptr, nptr', us, u, docs);
  }

  /** What is copied stays as it is. */
  method CopyBeside(copy: Item, cptr: Item, nptr: Item?, ghost t: Tree, ghost us: seq<Tree>, ghost done: seq<Doc>,
                    ghost owned: set<Item>, ghost made: set<Item>, ghost first: Item?, ghost ts: seq<Tree>)
      returns (nptr': Item, ghost u: Tree)
    requires Rooted(t) && cptr == t.node && Nodes(t) <= owned && AllNodes(ts) <= owned
    requires Says(copy.child, us) == Some(done) && nptr == Seat(Roots(us), |us| - 1) && (nptr != null ==> nptr in made)
    requires AllNodes(us) <= made && owned !! made && copy !in owned && copy !in made
    modifies copy`child, {nptr}`next
    ensures Says(first, ts) == old(Says(first, ts)) && nptr' == u.node && fresh(Nodes(u))
    ensures Says(copy.child, us + [u]) == Some(done + [Stripped(old(Content(t)))])
    decreases t, 2
  {
    nptr', u := CopyChild(copy, cptr, nptr, t, us, done, owned, made);
  }

  /** How far the loop has come: the copies, what they say, and the items they are made of. */
  datatype Progress = Progress(us: seq<Tree>, done: seq<Doc>, made: set<Item>)

  ghost predicate Underway(copy: Item, first: Item?, ts: seq<Tree>, docs: seq<Doc>, cptr: Item?, nptr: Item?, p: Progress)
    reads copy, AllNodes(ts), AllNodes(p.us)
  {
    && Says(first, ts) == Some(docs) && |p.us| <= |ts| == |docs| && cptr == Seat(Roots(ts), |p.us|)
    && Says(copy.child, p.us) == Some(p.done) && nptr == Seat(Roots(p.us), |p.us| - 1) && (nptr != null ==> nptr in p.made)
    && p.done == StrippedAll(docs)[..|p.us|] && AllNodes(p.us) <= p.made
  }

  /** One turn of the loop. */
  method CopyTurn(copy: Item, cptr: Item, nptr: Item?, ghost first: Item?, ghost ts: seq<Tree>, ghost docs: seq<Doc>,
                  ghost owned: set<Item>, ghost p: Progress)
      returns (cptr': Item?, nptr': Item, ghost p': Progress)
    requires Underway(copy, first, ts, docs, cptr, nptr, p)
    requires AllNodes(ts) <= owned && owned !! p.made && copy !in owned && copy !in p.made
    modifies copy`child, {nptr}`next
    ensures Underway(copy, first, ts, docs, cptr', nptr', p') && |p'.us| == |p.us| + 1
    ensures fresh(p'.made - p.made)
    decreases ts, 0
  {
    ghost var k, u := |p.us|, Tree(copy, []);
    ChildAt(first, ts, docs, k);
    StrippedPrefix(docs, k);
    cptr' := cptr.next;
    nptr', u := CopyBeside(copy, cptr, nptr, ts[k], p.us, p.done, owned, p.made, first, ts);
    NodesMore(p.us, u);
    p' := Progress(p.us + [u], p.done + [Stripped(docs[k])], p.made + Nodes(u));
  }

  /** The loop of `cJSON_Duplicate`. */
  method CopyChildren(copy: Item, first: Item?, ghost ts: seq<Tree>, ghost docs: seq<Doc>, ghost owned: set<Item>)
      returns (ghost us: seq<Tree>)
    requires Says(first, ts) == Some(docs) && AllNodes(ts) <= owned && copy !in owned && copy.child == null
    modifies copy`child
    ensures fresh(AllNodes(us)) && Says(copy.child, us) == Some(StrippedAll(docs))
    decreases ts, 1
  {
    var cptr, nptr: Item? := first, null;
    ghost var p := Progress([], [], {});
    SaysNothing(copy.child, first, ts);
    while cptr != null
      invariant Underway(copy, first, ts, docs, cptr, nptr, p) && fresh(p.made)
      decreases |ts| - |p.us|
    {
      cptr, nptr, p := CopyTurn(copy, cptr, nptr, first, ts, docs, owned, p);
    }
    us := p.us;
    assert StrippedAll(docs)[..|docs|] == StrippedAll(docs);
  }

  lemma NodesMore(us: seq<Tree>, u: Tree)
    ensures AllNodes(us + [u]) == AllNodes(us) + Nodes(u) && u.node in Nodes(u)
    ensures Seat(Roots(us + [u]), |us|) == u.node
  {
    forall x | x in AllNodes(us) ensures x in AllNodes(us + [u]) {
      var k :| k in us && x in Nodes(k);
      assert k in us + [u];
    }
    assert u in us + [u];
  }

  lemma SaysNothing(child: Item?, first: Item?, ts: seq<Tree>)
    ensures child == null ==> Says(child, []) == Some([])
    ensures Says(first, ts).Some? ==> first == Seat(Roots(ts), 0) && |Says(first, ts).value| == |ts|
  {
    assert Joined(Seat([], -1), Seat([], 0));
  }

  lemma SaysWhole(u: Tree, docs: seq<Doc>)
    requires Says(u.node.child, u.kids) == Some(docs) && u.node !in AllNodes(u.kids)
    ensures Rooted(u) && Content(u).kids == docs
  {
  }

  /** `cJSON_Duplicate`: new items throughout, and the same content. */
  method Duplicate(item: Item, recurse: bool, ghost t: Tree, ghost owned: set<Item>) returns (copy: Item, ghost u: Tree)
    requires t.node == item && Rooted(t) && Nodes(t) <= owned
    ensures u.node == copy && fresh(Nodes(u)) && Rooted(u) && Detached(copy)
    ensures Content(u) == Stripped(if recurse then Content(t) else Content(t).(kids := []))
    decreases t, 0
  {
    copy := CopyFields(item);
    ghost var us, docs := [], [];
    if recurse {
      docs := Contents(t.kids);
      us := CopyChildren(copy, item.child, t.kids, docs, owned);
    } else {
      SaysNothing(copy.child, null, []);
    }
    u := Tree(copy, us);
    SaysWhole(u, StrippedAll(docs));
    StrippedIs(if recurse then Content(t) else Content(t).(kids := []), Content(u));
  }
}
