/**
 * Duplicating and then deleting. `cJSON_Duplicate` gives every copy a name of its own but keeps
 * the mark that says the name is not owned, so some names are never freed: exactly which.
 */
module JsonLeak {
  import opened Common
  import opened JsonSiblings
  import opened JsonTree
  import opened JsonDelete

  // ----- what the content of a tree says about its items

  /** Some named item is marked as having a constant name. */
  ghost predicate HasConstName(xs: set<Item>)
    reads xs
  {
    exists x :: x in xs && x.name.Some? && x.nameIsConst
  }

  predicate ConstNamed(d: Doc) {
    (d.name.Some? && d.nameIsConst) || exists i :: 0 <= i < |d.kids| && ConstNamed(d.kids[i])
  }

  predicate HasReference(d: Doc) {
    d.reference || exists i :: 0 <= i < |d.kids| && HasReference(d.kids[i])
  }

  lemma {:induction false} NamesInContent(t: Tree, x: Item)
    requires x in Nodes(t) && x.name.Some? && x.nameIsConst
    ensures ConstNamed(Content(t))
    decreases t
  {
    if x != t.node {
      var k :| k in t.kids && x in Nodes(k);
      var i :| 0 <= i < |t.kids| && t.kids[i] == k;
      NamesInContent(k, x);
      ContentsAt(t.kids);
      assert ConstNamed(Content(t).kids[i]);
    }
  }

  lemma {:induction false} ContentInNames(t: Tree)
    requires ConstNamed(Content(t))
    ensures HasConstName(Nodes(t))
    decreases t
  {
    var d := Content(t);
    if d.name.Some? && d.nameIsConst {
      assert t.node in Nodes(t);
    } else {
      var i :| 0 <= i < |d.kids| && ConstNamed(d.kids[i]);
      ContentsAt(t.kids);
      ContentInNames(t.kids[i]);
      var x :| x in Nodes(t.kids[i]) && x.name.Some? && x.nameIsConst;
      assert t.kids[i] in t.kids && x in Nodes(t);
    }
  }

  lemma ContentNames(t: Tree)
    ensures ConstNamed(Content(t)) <==> HasConstName(Nodes(t))
  {
    if ConstNamed(Content(t)) { ContentInNames(t); }
    if HasConstName(Nodes(t)) {
      var x :| x in Nodes(t) && x.name.Some? && x.nameIsConst;
      NamesInContent(t, x);
    }
  }

  lemma {:induction false} ContentReferences(t: Tree)
    requires !HasReference(Content(t))
    ensures ReferenceFree(Nodes(t))
    decreases t
  {
    var d := Content(t);
    ContentsAt(t.kids);
    forall x | x in Nodes(t) ensures !x.isReference {
      if x != t.node {
        var k :| k in t.kids && x in Nodes(k);
        var i :| 0 <= i < |t.kids| && t.kids[i] == k;
        assert !HasReference(d.kids[i]);
        ContentReferences(k);
      }
    }
  }

  lemma {:induction false} StrippedNames(d: Doc)
    ensures ConstNamed(Stripped(d)) <==> ConstNamed(d)
    ensures !HasReference(Stripped(d))
  {
    var e := Stripped(d);
    forall i | 0 <= i < |d.kids|
      ensures (ConstNamed(e.kids[i]) <==> ConstNamed(d.kids[i])) && !HasReference(e.kids[i])
    {
      assert e.kids[i] == Stripped(d.kids[i]);
      StrippedNames(d.kids[i]);
    }
    if ConstNamed(d) && !(d.name.Some? && d.nameIsConst) {
      var i :| 0 <= i < |d.kids| && ConstNamed(d.kids[i]);
      assert ConstNamed(e.kids[i]);
    }
  }

  // ----- which names are freed

  /** Every name in the tree is among the blocks freed. */
  ghost predicate NamesFreed(xs: set<Item>, es: seq<Event>)
    reads xs
  {
    forall x :: x in xs && x.name.Some? ==> FreeName(x) in es
  }

  lemma NamesFreedIff(es: seq<Event>, xs: set<Item>)
    requires Exact(es, xs)
    ensures NamesFreed(xs, es) <==> !HasConstName(xs)
  {
    forall x | x in xs && x.name.Some? ensures FreeName(x) in es <==> !x.nameIsConst {
      assert Settled(es, x);
      if FreeName(x) in es { assert Owed(xs, FreeName(x)); }
    }
  }

  /** The items a duplication copies. */
  ghost function Copied(t: Tree, recurse: bool): set<Item> { if recurse then Nodes(t) else {t.node} }

  /** For any `u` that says what a duplicate of `t` says. */
  lemma CopyNames(t: Tree, u: Tree, recurse: bool)
    requires Content(u) == Stripped(if recurse then Content(t) else Content(t).(kids := []))
    ensures HasConstName(Nodes(u)) <==> HasConstName(Copied(t, recurse))
    ensures ReferenceFree(Nodes(u))
  {
    var d := if recurse then Content(t) else Content(t).(kids := []);
    StrippedNames(d);
    ContentNames(u);
    ContentReferences(u);
    if recurse {
      ContentNames(t);
    } else {
      assert ConstNamed(d) <==> t.node.name.Some? && t.node.nameIsConst;
      assert HasConstName({t.node}) <==> t.node.name.Some? && t.node.nameIsConst by {
        if t.node.name.Some? && t.node.nameIsConst { assert t.node in {t.node}; }
      }
    }
  }

  lemma {:induction false} OneHangs(u: Tree)
    requires Rooted(u) && Detached(u.node)
    ensures Hanging(u.node, [u])
  {
    assert Roots([u]) == [u.node] && Joined(Seat([u.node], -1), Seat([u.node], 0));
  }

  lemma {:induction false} OneTree(u: Tree)
    ensures AllNodes([u]) == Nodes(u) && ReleasedAll([u]) == Released(u)
  {
    NodesMore([], u);
    assert [] + [u] == [u];
    assert [u][..0] == [] && [] + Released(u) == Released(u);
  }

  /**
   * A duplicate, deleted again: every name it was given is freed if and only if no named item
   * that was copied is marked as having a constant name.
   */
  method DuplicateAndDelete(item: Item, recurse: bool, ghost t: Tree, ghost owned: set<Item>)
      returns (ghost u: Tree, log: seq<Event>)
    requires t.node == item && Rooted(t) && Nodes(t) <= owned
    ensures fresh(Nodes(u)) && Content(u) == Stripped(if recurse then Content(t) else Content(t).(kids := []))
    ensures Exact(log, Nodes(u))
    ensures NamesFreed(Nodes(u), log) <==> !old(HasConstName(Copied(t, recurse)))
  {
    var copy;
    copy, u := Duplicate(item, recurse, t, owned);
    CopyNames(t, u, recurse);
    log := DeleteTree(copy, u, Nodes(u));
    NamesFreedIff(log, Nodes(u));
  }

  method DeleteTree(c: Item, ghost u: Tree, ghost owned: set<Item>) returns (log: seq<Event>)
    requires Rooted(u) && Detached(u.node) && c == u.node && ReferenceFree(Nodes(u)) && Nodes(u) <= owned
    ensures log == old(Released(u)) && Exact(log, Nodes(u)) && Content(u) == old(Content(u))
    ensures HasConstName(Nodes(u)) == old(HasConstName(Nodes(u)))
  {
    OneHangs(u);
    OneTree(u);
    ReleasedExact(u);
    log := Delete([], c, [u], owned);
  }

  /** An item with a constant name: the name its copy was given is never freed. */
  method LeakedName() returns (copy: Item, log: seq<Event>)
    ensures copy.name == Some("n") && FreeNode(copy) in log && FreeName(copy) !in log
  {
    var item := new Item();
    item.name, item.nameIsConst := Some("n"), true;
    ghost var t := Tree(item, []);
    assert Joined(Seat([], -1), Seat([], 0));
    ghost var u;
    copy, u := Duplicate(item, true, t, {item});
    CopyNames(t, u, true);
    log := DeleteTree(copy, u, Nodes(u));
    assert copy in Nodes(u) && Settled(log, copy);
    assert FreeName(copy) in log ==> Owed(Nodes(u), FreeName(copy));
  }
}
