/**
 * The intrusive circular list of rtservice.h, on a heap of nodes, and the
 * thread lists of ipc.c built on it.  A node is embedded in a thread, so it
 * carries the thread's priority; the list head is a node of its own.
 */
module Ring {
  import opened Common
  import opened WaitList

  class Node {
    /** The thread the node is embedded in (`rt_list_entry`); of no meaning in a list head. */
    const id: nat
    var next: Node
    var prev: Node
    var priority: nat

    constructor (id: nat, p: nat)
      ensures this.id == id && next == prev == this && priority == p
    {
      this.id := id;
      next, prev, priority := this, this, p;
    }
  }

  /** The node at position `i` of the ring, the head standing before the first and after the last. */
  function Seat(head: Node, q: seq<Node>, i: int): Node {
    if 0 <= i < |q| then q[i] else head
  }

  /** `head` and `q` are linked both ways, in this order, and nothing is linked twice. */
  ghost predicate Linked(head: Node, q: seq<Node>)
    reads head, q
  {
    && head !in q && Distinct(q)
    && forall i :: 0 <= i <= |q| ==> Joined(Seat(head, q, i - 1), Seat(head, q, i))
  }

  ghost predicate Joined(a: Node, b: Node)
    reads a, b
  {
    a.next == b && b.prev == a
  }

  /** `rt_list_init` */
  method Init(l: Node)
    modifies l
    ensures Linked(l, []) && l.priority == old(l.priority)
  {
    l.next, l.prev := l, l;
    assert Joined(Seat(l, [], -1), Seat(l, [], 0));
  }

  /** `rt_list_insert_before`: `l` is the node now at position `k`, or the head for the end. */
  method InsertBefore(l: Node, n: Node, ghost head: Node, ghost q: seq<Node>, ghost k: nat)
    requires Linked(head, q) && k <= |q| && l == Seat(head, q, k) && n != head && n !in q
    modifies l`prev, l.prev`next, n`next, n`prev
    ensures Linked(head, InsertAt(q, k, n))
  {
    assert Joined(Seat(head, q, k - 1), Seat(head, q, k));
    l.prev.next := n;
    n.prev := l.prev;
    l.prev := n;
    n.next := l;
    ghost var r := InsertAt(q, k, n);
    assert forall i :: 0 <= i < |r| ==> r[i] == if i < k then q[i] else if i == k then n else q[i - 1];
    forall i | 0 <= i <= |r| ensures Joined(Seat(head, r, i - 1), Seat(head, r, i)) {
      if i < k {
        assert old(Joined(Seat(head, q, i - 1), Seat(head, q, i)));
      } else if i > k + 1 {
        assert old(Joined(Seat(head, q, i - 2), Seat(head, q, i - 1)));
      }
    }
  }

  /** `rt_list_insert_after`: `l` is the node just before position `k`, or the head for the front. */
  method InsertAfter(l: Node, n: Node, ghost head: Node, ghost q: seq<Node>, ghost k: nat)
    requires Linked(head, q) && k <= |q| && l == Seat(head, q, k - 1) && n != head && n !in q
    modifies l`next, l.next`prev, n`next, n`prev
    ensures Linked(head, InsertAt(q, k, n))
  {
    assert Joined(Seat(head, q, k - 1), Seat(head, q, k));
    l.next.prev := n;
    n.next := l.next;
    l.next := n;
    n.prev := l;
    ghost var r := InsertAt(q, k, n);
    assert forall i :: 0 <= i < |r| ==> r[i] == if i < k then q[i] else if i == k then n else q[i - 1];
    forall i | 0 <= i <= |r| ensures Joined(Seat(head, r, i - 1), Seat(head, r, i)) {
      if i < k {
        assert old(Joined(Seat(head, q, i - 1), Seat(head, q, i)));
      } else if i > k + 1 {
        assert old(Joined(Seat(head, q, i - 2), Seat(head, q, i - 1)));
      }
    }
  }

  /** `rt_list_remove`: the node leaves the ring and becomes a ring of its own. */
  method Remove(n: Node, ghost head: Node, ghost q: seq<Node>, ghost k: nat)
    requires Linked(head, q) && k < |q| && q[k] == n
    modifies n.next`prev, n.prev`next, n`next, n`prev
    ensures Linked(head, RemoveAt(q, k)) && Linked(n, [])
  {
    assert Joined(Seat(head, q, k - 1), q[k]) && Joined(q[k], Seat(head, q, k + 1)) by {
      assert Joined(Seat(head, q, k - 1), Seat(head, q, k));
      assert Joined(Seat(head, q, k + 1 - 1), Seat(head, q, k + 1));
    }
    n.next.prev := n.prev;
    n.prev.next := n.next;
    n.next, n.prev := n, n;
    ghost var r := RemoveAt(q, k);
    forall i | 0 <= i <= |r| ensures Joined(Seat(head, r, i - 1), Seat(head, r, i)) {
      if i < k {
        assert old(Joined(Seat(head, q, i - 1), Seat(head, q, i)));
      } else if i > k {
        assert old(Joined(Seat(head, q, i), Seat(head, q, i + 1))) by {
          assert old(Joined(Seat(head, q, i + 1 - 1), Seat(head, q, i + 1)));
        }
      }
    }
    assert Joined(Seat(n, [], -1), Seat(n, [], 0));
  }

  /** `rt_list_isempty` */
  method IsEmpty(l: Node, ghost q: seq<Node>) returns (b: bool)
    requires Linked(l, q)
    ensures b <==> q == []
  {
    b := l.next == l;
    assert Joined(Seat(l, q, -1), Seat(l, q, 0));
  }

  /** `rt_list_len` */
  method Len(l: Node, ghost q: seq<Node>) returns (len: nat)
    requires Linked(l, q)
    ensures len == |q|
  {
    len := 0;
    var p := l;
    assert Joined(Seat(l, q, -1), Seat(l, q, 0));
    while p.next != l
      invariant len <= |q| && p == Seat(l, q, len - 1) && p.next == Seat(l, q, len)
      decreases |q| - len
    {
      p := p.next;
      len := len + 1;
      assert Joined(Seat(l, q, len - 1), Seat(l, q, len));
    }
  }

  // ----- thread lists

  ghost function Priorities(q: seq<Node>): (keys: seq<nat>)
    reads q
    ensures |keys| == |q| && forall i :: 0 <= i < |q| ==> keys[i] == q[i].priority
  {
    seq(|q|, i requires 0 <= i < |q| reads q => q[i].priority)
  }

  /** A cut where everything before is at most `p` and the next is above it is the insertion position. */
  lemma {:induction false} PositionIs(keys: seq<nat>, p: nat, k: nat)
    requires k <= |keys| && (forall i :: 0 <= i < k ==> keys[i] <= p) && (k < |keys| ==> p < keys[k])
    ensures Position(keys, p) == k
  {
    if k > 0 { PositionIs(keys[1..], p, k - 1); }
  }

  /** The scan of the PRIO case: the first node with a less urgent thread, or the head. */
  method FindLess(list: Node, thread: Node, ghost q: seq<Node>) returns (n: Node, ghost k: nat)
    requires Linked(list, q)
    ensures k == Position(Priorities(q), thread.priority) <= |q| && n == Seat(list, q, k)
  {
    k := 0;
    assert Joined(Seat(list, q, -1), Seat(list, q, 0));
    n := list.next;
    while n != list
      invariant k <= |q| && n == Seat(list, q, k)
      invariant forall i :: 0 <= i < k ==> q[i].priority <= thread.priority
      decreases |q| - k
    {
      if thread.priority < n.priority {
        PositionIs(Priorities(q), thread.priority, k);
        return;
      }
      k := k + 1;
      assert Joined(Seat(list, q, k - 1), Seat(list, q, k));
      n := n.next;
    }
    PositionIs(Priorities(q), thread.priority, k);
  }

  /** `rt_ipc_list_suspend`: at the end, or before the first less urgent thread. */
  method SuspendThread(list: Node, thread: Node, flag: Flag, ghost q: seq<Node>) returns (ghost k: nat)
    requires Linked(list, q) && thread != list && thread !in q
    modifies list`next, list`prev, q`next, q`prev, thread`next, thread`prev
    ensures k == if flag.Fifo? then |q| else Position(old(Priorities(q)), old(thread.priority))
    ensures k <= |q| && Linked(list, InsertAt(q, k, thread))
  {
    var n := list;
    k := |q|;
    if flag.Prio? { n, k := FindLess(list, thread, q); }
    assert Joined(Seat(list, q, k - 1), Seat(list, q, k));
    InsertBefore(n, thread, list, q, k);
  }

  /** `rt_ipc_list_resume`: the first thread is unlinked. */
  method ResumeFirst(list: Node, ghost q: seq<Node>) returns (thread: Node)
    requires Linked(list, q) && q != []
    modifies list`next, list`prev, q`next, q`prev
    ensures thread == q[0] && Linked(list, q[1..]) && Linked(thread, [])
  {
    assert Joined(Seat(list, q, -1), Seat(list, q, 0));
    assert Joined(Seat(list, q, 0), Seat(list, q, 1)) by { assert Joined(Seat(list, q, 1 - 1), Seat(list, q, 1)); }
    thread := list.next;
    Remove(thread, list, q, 0);
    assert RemoveAt(q, 0) == q[1..];
  }

  /** The part of `q` from `k` on is still linked. */
  ghost predicate LinkedFrom(list: Node, q: seq<Node>, k: nat)
    reads list, q
  {
    k <= |q| && Linked(list, q[k..])
  }

  /** One turn of the loop below. */
  method ResumeNext(list: Node, ghost q: seq<Node>, ghost k: nat) returns (thread: Node, empty: bool)
    requires LinkedFrom(list, q, k) && k < |q|
    modifies list`next, list`prev, q`next, q`prev
    ensures thread == q[k] && LinkedFrom(list, q, k + 1) && (empty <==> k + 1 == |q|)
  {
    ghost var rest := q[k..];
    assert forall i :: 0 <= i < |rest| ==> rest[i] == q[k + i];
    assert rest[1..] == q[k + 1..];
    thread := ResumeFirst(list, rest);
    empty := IsEmpty(list, q[k + 1..]);
  }

  /** `rt_ipc_list_resume_all`: every thread is unlinked, front first. */
  method ResumeAll(list: Node, ghost q: seq<Node>) returns (woken: seq<Node>)
    requires Linked(list, q)
    modifies list`next, list`prev, q`next, q`prev
    ensures woken == q && Linked(list, [])
  {
    woken := [];
    var empty := IsEmpty(list, q);
    assert q[0..] == q;
    ghost var k := 0;
    while !empty
      invariant LinkedFrom(list, q, k) && (empty <==> k == |q|) && woken == q[..k]
      decreases |q| - k
    {
      var thread;
      thread, empty := ResumeNext(list, q, k);
      woken := woken + [thread];
      k := k + 1;
    }
    assert q[|q|..] == [] && q[..|q|] == q;
  }
}
