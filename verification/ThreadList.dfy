/**
 * The wait list of a kernel object: a ring of thread nodes and the sequence of
 * threads it stands for.
 */
module ThreadList {
  import opened Common
  import opened WaitList
  import opened Ring

  /** The node of thread `t` is the `t`-th. */
  ghost predicate Table(threads: seq<Node>) {
    forall t :: 0 <= t < |threads| ==> threads[t].id == t
  }

  function Ids(q: seq<Node>): (r: seq<Thread>)
    ensures |r| == |q| && forall i :: 0 <= i < |q| ==> r[i] == q[i].id
  {
    seq(|q|, i requires 0 <= i < |q| => q[i].id)
  }

  ghost predicate InTable(threads: seq<Node>, q: seq<Node>) {
    forall i :: 0 <= i < |q| ==> q[i].id < |threads| && threads[q[i].id] == q[i]
  }

  ghost function Urgencies(threads: seq<Node>): (ps: WaitList.Priorities)
    reads threads
    ensures |ps| == |threads| && forall t :: 0 <= t < |threads| ==> ps[t] == threads[t].priority
  {
    seq(|threads|, t requires 0 <= t < |threads| reads threads => threads[t].priority)
  }

  lemma IdsInsert(q: seq<Node>, k: nat, n: Node)
    requires k <= |q|
    ensures Ids(InsertAt(q, k, n)) == InsertAt(Ids(q), k, n.id)
  {
  }

  lemma IdsRemove(q: seq<Node>, k: nat)
    requires k < |q|
    ensures Ids(RemoveAt(q, k)) == RemoveAt(Ids(q), k) && Ids(q[1..]) == Ids(q)[1..]
  {
  }

  lemma InTableInsert(threads: seq<Node>, q: seq<Node>, k: nat, n: Node)
    requires InTable(threads, q) && k <= |q| && n.id < |threads| && threads[n.id] == n
    ensures InTable(threads, InsertAt(q, k, n))
  {
  }

  lemma KeysOfNodes(threads: seq<Node>, q: seq<Node>)
    requires Table(threads) && InTable(threads, q)
    ensures Keys(Urgencies(threads), Ids(q)) == Ring.Priorities(q)
  {
  }

  class WaitQueue {
    const head: Node
    const threads: seq<Node>
    ghost var q: seq<Node>

    ghost predicate Valid()
      reads this, head, q
    {
      Table(threads) && head !in threads && InTable(threads, q) && Linked(head, q)
    }

    ghost function Waiting(): seq<Thread>
      reads this
    {
      Ids(q)
    }

    ghost function Urgency(): WaitList.Priorities
      reads threads
    {
      Urgencies(threads)
    }

    function NodeOf(t: Thread): Node
      requires t < |threads|
    {
      threads[t]
    }

    constructor (threads: seq<Node>)
      requires Table(threads)
      ensures Valid() && this.threads == threads && Waiting() == [] && fresh(head)
    {
      var l := new Node(0, 0);
      head, this.threads, q := l, threads, [];
      new;
      assert Joined(Seat(head, [], -1), Seat(head, [], 0));
    }

    method IsEmpty() returns (b: bool)
      requires Valid()
      ensures b <==> Waiting() == []
    {
      b := Ring.IsEmpty(head, q);
    }

    lemma NotLinked(t: Thread)
      requires Valid() && t < |threads| && t !in Waiting()
      ensures threads[t] !in q
    {
      assert forall i :: 0 <= i < |q| ==> Ids(q)[i] in Ids(q);
    }

    lemma Members()
      requires Valid()
      ensures forall n :: n in q ==> n in threads
    {
    }

    /** `rt_ipc_list_suspend` */
    method Suspend(t: Thread, flag: Flag)
      requires Valid() && t < |threads| && t !in Waiting()
      modifies this`q, head`next, head`prev, q`next, q`prev, NodeOf(t)`next, NodeOf(t)`prev
      ensures Valid() && Waiting() == WaitList.Suspend(old(Urgency()), flag, old(Waiting()), t)
      ensures Urgency() == old(Urgency()) && forall n :: n in q <==> n in old(q) || n == NodeOf(t)
    {
      var thread := threads[t];
      NotLinked(t);
      KeysOfNodes(threads, q);
      ghost var k := SuspendThread(head, thread, flag, q);
      IdsInsert(q, k, thread);
      InTableInsert(threads, q, k, thread);
      InsertedMembers(q, k, thread);
      q := InsertAt(q, k, thread);
    }

    /** `rt_ipc_list_resume` */
    method ResumeFirst() returns (t: Thread)
      requires Valid() && Waiting() != []
      modifies this`q, head`next, head`prev, q`next, q`prev
      ensures Valid() && t == old(Waiting())[0] && Waiting() == old(Waiting())[1..] && Urgency() == old(Urgency())
      ensures t < |threads| && q == old(q)[1..]
    {
      var thread := Ring.ResumeFirst(head, q);
      t := thread.id;
      IdsRemove(q, 0);
      q := q[1..];
    }

    /** `rt_list_remove` of the node of a sleeping thread, as its timer and `rt_thread_resume` do. */
    method Leave(t: Thread)
      requires Valid() && t in Waiting()
      modifies this`q, head`next, head`prev, q`next, q`prev
      ensures Valid() && Waiting() == Without(old(Waiting()), t) && Urgency() == old(Urgency())
    {
      ghost var k := IndexOf(Ids(q), t);
      assert q[k].id == t && threads[t] == q[k];
      IdsRemove(q, k);
      Unlink(threads[t], k);
    }

    /** `n = list.next` and `n = n->next`: the node at a position, the head after the last. */
    method First() returns (n: Node)
      requires Valid()
      ensures n == Seat(head, q, 0)
    {
      assert Joined(Seat(head, q, -1), Seat(head, q, 0));
      n := head.next;
    }

    method After(n: Node, ghost k: nat) returns (n': Node)
      requires Valid() && k < |q| && n == q[k]
      ensures n' == Seat(head, q, k + 1)
    {
      assert Joined(Seat(head, q, k + 1 - 1), Seat(head, q, k + 1));
      n' := n.next;
    }

    /** `rt_thread_resume` of the thread at a position. */
    method Unlink(n: Node, ghost k: nat)
      requires Valid() && k < |q| && n == q[k]
      modifies this`q, head`next, head`prev, q`next, q`prev
      ensures Valid() && q == RemoveAt(old(q), k) && Urgency() == old(Urgency())
    {
      NeighboursIn(k);
      Ring.Remove(n, head, q, k);
      q := RemoveAt(q, k);
    }

    lemma NeighboursIn(k: nat)
      requires Valid() && k < |q|
      ensures q[k].next == head || q[k].next in q
      ensures q[k].prev == head || q[k].prev in q
    {
      assert Joined(Seat(head, q, k - 1), Seat(head, q, k));
      assert Joined(Seat(head, q, k + 1 - 1), Seat(head, q, k + 1));
    }

    /** `rt_ipc_list_resume_all` */
    method ResumeAll() returns (woken: seq<Thread>)
      requires Valid()
      modifies this`q, head`next, head`prev, q`next, q`prev
      ensures Valid() && woken == old(Waiting()) && q == [] && Urgency() == old(Urgency())
    {
      var nodes := Ring.ResumeAll(head, q);
      woken := Ids(nodes);
      q := [];
    }

    /** `rt_thread_control` with CHANGE_PRIORITY; it does not move the thread in the list. */
    method SetPriority(t: Thread, p: nat)
      requires Valid() && t < |threads|
      modifies threads`priority
      ensures Valid() && Waiting() == old(Waiting()) && Urgency() == old(Urgency())[t := p]
    {
      threads[t].priority := p;
    }
  }

  // ----- two lists over the same threads

  /** Both well linked, and no thread in both. */
  ghost predicate Beside(a: WaitQueue, b: WaitQueue)
    reads a, b, a.head, b.head, a.q, b.q
  {
    && a != b && a.head != b.head && a.threads == b.threads && a.Valid() && b.Valid()
    && a.head !in b.q && b.head !in a.q
    && (forall n :: n in a.q ==> n !in b.q) && (forall n :: n in b.q ==> n !in a.q)
  }

  /** A thread in neither list goes to sleep in the first. */
  method SuspendBeside(a: WaitQueue, b: WaitQueue, t: Thread, flag: Flag)
    requires Beside(a, b) && t < |a.threads| && t !in a.Waiting() && t !in b.Waiting()
    modifies a`q, a.head`next, a.head`prev, a.q`next, a.q`prev, a.NodeOf(t)`next, a.NodeOf(t)`prev
    ensures Beside(a, b) && b.Waiting() == old(b.Waiting())
    ensures a.Waiting() == WaitList.Suspend(old(a.Urgency()), flag, old(a.Waiting()), t)
    ensures a.Urgency() == old(a.Urgency())
  {
    b.NotLinked(t);
    ghost var node, bq, bh := a.NodeOf(t), b.q, b.head;
    assert node in b.threads && node !in bq && node != bh;
    a.Suspend(t, flag);
    assert forall x :: x in bq ==> x.next == old(x.next) && x.prev == old(x.prev);
    assert bh.next == old(bh.next) && bh.prev == old(bh.prev);
    assert Linked(bh, bq);
  }

  /** The first of the first list is resumed. */
  method ResumeBeside(a: WaitQueue, b: WaitQueue) returns (t: Thread)
    requires Beside(a, b) && a.Waiting() != []
    modifies a`q, a.head`next, a.head`prev, a.q`next, a.q`prev
    ensures Beside(a, b) && b.Waiting() == old(b.Waiting())
    ensures t == old(a.Waiting())[0] && a.Waiting() == old(a.Waiting())[1..] && a.Urgency() == old(a.Urgency())
  {
    ghost var bq, bh := b.q, b.head;
    t := a.ResumeFirst();
    assert forall x :: x in bq ==> x.next == old(x.next) && x.prev == old(x.prev);
    assert bh.next == old(bh.next) && bh.prev == old(bh.prev);
    assert Linked(bh, bq);
  }

  /** Everyone in the first list is resumed. */
  method ResumeAllBeside(a: WaitQueue, b: WaitQueue) returns (woken: seq<Thread>)
    requires Beside(a, b)
    modifies a`q, a.head`next, a.head`prev, a.q`next, a.q`prev
    ensures Beside(a, b) && b.Waiting() == old(b.Waiting()) && woken == old(a.Waiting()) && a.Waiting() == []
    ensures a.Urgency() == old(a.Urgency()) && b.q == old(b.q)
  {
    ghost var bq, bh := b.q, b.head;
    woken := a.ResumeAll();
    assert forall x :: x in bq ==> x.next == old(x.next) && x.prev == old(x.prev);
    assert bh.next == old(bh.next) && bh.prev == old(bh.prev);
    assert Linked(bh, bq);
  }
}
