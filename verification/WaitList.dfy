/**
 * Wait lists of IPC objects: where a suspending thread is put.
 * A smaller number is a more urgent priority.
 */
module WaitList {
  import opened Common

  type Thread = nat

  datatype Flag = Fifo | Prio

  /** `rt_uint8_t current_priority` of every thread; 255 for a thread that does not exist. */
  type Priorities = seq<nat>

  function PriorityOf(ps: Priorities, t: Thread): nat {
    if t < |ps| then ps[t] else 255
  }

  /** The first index whose priority is strictly less urgent than `p`, or the end. */
  function Position(keys: seq<nat>, p: nat): (k: nat)
    ensures k <= |keys|
    ensures forall i :: 0 <= i < k ==> keys[i] <= p
    ensures k < |keys| ==> p < keys[k]
  {
    if keys == [] || p < keys[0] then 0 else 1 + Position(keys[1..], p)
  }

  function Keys(ps: Priorities, q: seq<Thread>): (keys: seq<nat>)
    ensures |keys| == |q| && forall i :: 0 <= i < |q| ==> keys[i] == PriorityOf(ps, q[i])
  {
    seq(|q|, i requires 0 <= i < |q| => PriorityOf(ps, q[i]))
  }

  /** `rt_ipc_list_suspend` */
  function Suspend(ps: Priorities, flag: Flag, q: seq<Thread>, t: Thread): (r: seq<Thread>)
    ensures |r| == |q| + 1
  {
    match flag
    case Fifo => q + [t]
    case Prio => InsertAt(q, Position(Keys(ps, q), PriorityOf(ps, t)), t)
  }

  ghost predicate Sorted(keys: seq<nat>) {
    forall i, j :: 0 <= i < j < |keys| ==> keys[i] <= keys[j]
  }

  function IndexOf(q: seq<Thread>, t: Thread): (k: nat)
    ensures k <= |q| && (k < |q| ==> q[k] == t)
    ensures t in q <==> k < |q|
  {
    if q == [] || q[0] == t then 0 else 1 + IndexOf(q[1..], t)
  }

  /** Unlinking one thread, as `rt_thread_resume` and a timeout do. */
  function Without(q: seq<Thread>, t: Thread): seq<Thread> {
    if t in q then RemoveAt(q, IndexOf(q, t)) else q
  }

  /** Suspending adds exactly the thread. */
  lemma SuspendMembers(ps: Priorities, flag: Flag, q: seq<Thread>, t: Thread)
    ensures forall x :: x in Suspend(ps, flag, q, t) <==> x in q || x == t
    ensures Distinct(q) && t !in q ==> Distinct(Suspend(ps, flag, q, t))
  {
    var k := if flag.Fifo? then |q| else Position(Keys(ps, q), PriorityOf(ps, t));
    assert Suspend(ps, flag, q, t) == InsertAt(q, k, t);
    InsertedMembers(q, k, t);
    if Distinct(q) && t !in q { InsertedDistinct(q, k, t); }
  }

  /** The new thread stands behind every thread at least as urgent and before every less urgent one. */
  ghost predicate PlacedAt(ps: Priorities, q: seq<Thread>, t: Thread, k: nat)
    requires k <= |q|
  {
    && (forall i :: 0 <= i < k ==> PriorityOf(ps, q[i]) <= PriorityOf(ps, t))
    && (forall i :: k <= i < |q| ==> PriorityOf(ps, t) < PriorityOf(ps, q[i]))
  }

  lemma SuspendPlaced(ps: Priorities, q: seq<Thread>, t: Thread)
    requires Sorted(Keys(ps, q))
    ensures PlacedAt(ps, q, t, Position(Keys(ps, q), PriorityOf(ps, t)))
  {
    var keys := Keys(ps, q);
    var k := Position(keys, PriorityOf(ps, t));
    assert forall i :: k <= i < |q| ==> keys[k] <= keys[i];
  }

  lemma KeysInserted(ps: Priorities, q: seq<Thread>, k: nat, t: Thread)
    requires k <= |q|
    ensures Keys(ps, InsertAt(q, k, t)) == InsertAt(Keys(ps, q), k, PriorityOf(ps, t))
  {
  }

  lemma InsertedSorted(keys: seq<nat>, k: nat, p: nat)
    requires Sorted(keys) && k <= |keys|
    requires (forall i :: 0 <= i < k ==> keys[i] <= p) && (forall i :: k <= i < |keys| ==> p <= keys[i])
    ensures Sorted(InsertAt(keys, k, p))
  {
  }

  /** Priority order survives a suspension, and threads of equal priority keep their arrival order. */
  lemma SuspendSorted(ps: Priorities, q: seq<Thread>, t: Thread)
    requires Sorted(Keys(ps, q))
    ensures Sorted(Keys(ps, Suspend(ps, Prio, q, t)))
  {
    SuspendPlaced(ps, q, t);
    var keys, k := Keys(ps, q), Position(Keys(ps, q), PriorityOf(ps, t));
    assert forall i :: k <= i < |q| ==> PriorityOf(ps, t) < PriorityOf(ps, q[i]) == keys[i];
    KeysInserted(ps, q, k, t);
    InsertedSorted(keys, k, PriorityOf(ps, t));
  }

  /** `x` stands before `y`: more urgent, or as urgent and there earlier. */
  ghost predicate Before(ps: Priorities, x: Thread, y: Thread, stamp: map<Thread, nat>)
    requires x in stamp && y in stamp
  {
    PriorityOf(ps, x) < PriorityOf(ps, y) || (PriorityOf(ps, x) == PriorityOf(ps, y) && stamp[x] < stamp[y])
  }

  /** Arrival order: with stamps that grow, the list stays ordered by priority and then by stamp. */
  ghost predicate Ordered(ps: Priorities, q: seq<Thread>, stamp: map<Thread, nat>) {
    && (forall i :: 0 <= i < |q| ==> q[i] in stamp)
    && (forall i, j :: 0 <= i < j < |q| ==> Before(ps, q[i], q[j], stamp))
  }

  /** A thread that arrives last, put behind the at least as urgent and before the less urgent. */
  lemma OrderedInsert(ps: Priorities, q: seq<Thread>, t: Thread, stamp: map<Thread, nat>, now: nat, k: nat)
    requires Ordered(ps, q, stamp) && k <= |q| && PlacedAt(ps, q, t, k)
    requires forall i :: 0 <= i < |q| ==> q[i] != t && stamp[q[i]] < now
    ensures Ordered(ps, InsertAt(q, k, t), stamp[t := now])
  {
    var r, stamp' := InsertAt(q, k, t), stamp[t := now];
    assert forall i :: 0 <= i < |r| ==> r[i] == if i < k then q[i] else if i == k then t else q[i - 1];
    forall i, j | 0 <= i < j < |r| ensures Before(ps, r[i], r[j], stamp') {
      if i != k && j != k {
        assert Before(ps, q[if i < k then i else i - 1], q[if j < k then j else j - 1], stamp);
      }
    }
  }

  lemma OrderedSorted(ps: Priorities, q: seq<Thread>, stamp: map<Thread, nat>)
    requires Ordered(ps, q, stamp)
    ensures Sorted(Keys(ps, q))
  {
    var keys := Keys(ps, q);
    forall i, j | 0 <= i < j < |keys| ensures keys[i] <= keys[j] {
      assert Before(ps, q[i], q[j], stamp);
    }
  }

  lemma SuspendOrdered(ps: Priorities, q: seq<Thread>, t: Thread, stamp: map<Thread, nat>, now: nat)
    requires Ordered(ps, q, stamp) && t !in q && forall x :: x in q ==> stamp[x] < now
    ensures Ordered(ps, Suspend(ps, Prio, q, t), stamp[t := now])
  {
    OrderedSorted(ps, q, stamp);
    SuspendPlaced(ps, q, t);
    assert forall i :: 0 <= i < |q| ==> q[i] in q;
    OrderedInsert(ps, q, t, stamp, now, Position(Keys(ps, q), PriorityOf(ps, t)));
  }

  lemma WithoutMembers(q: seq<Thread>, t: Thread)
    requires Distinct(q)
    ensures var r := Without(q, t);
            && Distinct(r) && t !in r
            && (forall x :: x in r <==> x in q && x != t)
            && (t in q ==> |r| == |q| - 1)
  {
    if t in q {
      var k := IndexOf(q, t);
      var r := RemoveAt(q, k);
      forall x | x in q && x != t ensures x in r {
        var i :| 0 <= i < |q| && q[i] == x;
        assert r[if i < k then i else i - 1] == x;
      }
    }
  }

  lemma RemovedSorted(keys: seq<nat>, k: nat)
    requires Sorted(keys) && k < |keys|
    ensures Sorted(RemoveAt(keys, k))
  {
  }

  lemma KeysRemoved(ps: Priorities, q: seq<Thread>, k: nat)
    requires k < |q|
    ensures Keys(ps, RemoveAt(q, k)) == RemoveAt(Keys(ps, q), k)
  {
  }

  /** Order is kept when a thread leaves. */
  lemma WithoutSorted(ps: Priorities, q: seq<Thread>, t: Thread)
    requires Sorted(Keys(ps, q))
    ensures Sorted(Keys(ps, Without(q, t)))
    ensures q != [] ==> Sorted(Keys(ps, q[1..]))
  {
    var keys := Keys(ps, q);
    if q != [] {
      assert RemoveAt(q, 0) == q[1..];
      KeysRemoved(ps, q, 0);
      RemovedSorted(keys, 0);
    }
    if t in q {
      KeysRemoved(ps, q, IndexOf(q, t));
      RemovedSorted(keys, IndexOf(q, t));
    }
  }

  // ----- what the list operations mean

  /** Suspension adds the thread once and leaves the others in their order. */
  ghost predicate Joins(q: seq<Thread>, t: Thread, r: seq<Thread>) {
    exists k :: 0 <= k <= |q| && r == InsertAt(q, k, t)
  }

  lemma SuspendJoins(ps: Priorities, flag: Flag, q: seq<Thread>, t: Thread)
    ensures Joins(q, t, Suspend(ps, flag, q, t))
    ensures flag.Fifo? ==> Suspend(ps, flag, q, t) == q + [t]
  {
    var k := if flag.Fifo? then |q| else Position(Keys(ps, q), PriorityOf(ps, t));
    assert Suspend(ps, flag, q, t) == InsertAt(q, k, t);
  }

  /** Leaving takes the thread out from wherever it stands, and nobody else. */
  lemma {:induction false} WithoutSplit(a: seq<Thread>, t: Thread, b: seq<Thread>)
    requires t !in a
    ensures Without(a + [t] + b, t) == a + b
  {
    var q := a + [t] + b;
    IndexIs(q, t, |a|);
    assert RemoveAt(q, |a|) == a + b;
  }

  lemma {:induction false} IndexIs(q: seq<Thread>, t: Thread, k: nat)
    requires k < |q| && q[k] == t && forall i :: 0 <= i < k ==> q[i] != t
    ensures IndexOf(q, t) == k
  {
    if k > 0 { IndexIs(q[1..], t, k - 1); }
  }
}
