/** The recursive mutex with priority inheritance: `rt_mutex_take` and `rt_mutex_release`. */
module Mutex {
  import opened Kernel
  import opened Common
  import opened WaitList
  import opened ThreadList
  import Ring

  /** The object's fields and the current priority of every thread. */
  datatype State = State(value: nat, hold: nat, owner: Option<Thread>, original: nat,
                         waiting: seq<Thread>, cur: Priorities)

  function Init(base: Priorities): State {
    State(1, 0, None, 0xFF, [], base)
  }

  // ----- the critical sections

  function Take(flag: Flag, s: State, t: Thread, time: int): (State, Status) {
    if s.owner == Some(t) then (s.(hold := Inc8(s.hold)), Ok)
    else if s.value > 0 then
      (s.(value := Dec16(s.value), owner := Some(t), original := PriorityOf(s.cur, t), hold := Inc8(s.hold)), Ok)
    else if time == 0 then (s, TimedOut)
    else
      var cur := Boost(s.cur, s.owner, PriorityOf(s.cur, t));
      (s.(cur := cur, waiting := Suspend(cur, flag, s.waiting, t)), Blocked)
  }

  /** The owner inherits a more urgent priority (a mutex without value always has an owner). */
  function Boost(cur: Priorities, owner: Option<Thread>, p: nat): (r: Priorities)
    ensures |r| == |cur|
  {
    match owner
    case None => cur
    case Some(o) => if o < |cur| && p < cur[o] then cur[o := p] else cur
  }

  function Restore(cur: Priorities, o: Thread, p: nat): (r: Priorities)
    ensures |r| == |cur|
  {
    if o < |cur| then cur[o := p] else cur
  }

  function Release(s: State, t: Thread): (State, Status) {
    if s.owner != Some(t) then (s, Refused)
    else
      var hold := Dec8(s.hold);
      if hold != 0 then (s.(hold := hold), Ok)
      else
        var cur := Restore(s.cur, t, s.original);
        if s.waiting != [] then
          var next := s.waiting[0];
          (s.(hold := Inc8(hold), owner := Some(next), original := PriorityOf(cur, next),
              waiting := s.waiting[1..], cur := cur), Ok)
        else (s.(hold := hold, value := Inc16(s.value), owner := None, original := 0xFF, cur := cur), Ok)
  }

  /** The timer of a sleeping thread expires: it leaves the list. */
  function Expire(s: State, t: Thread): State {
    s.(waiting := Without(s.waiting, t))
  }

  // ----- runs

  datatype Op = DoTake(t: Thread, time: int) | DoRelease(t: Thread) | DoExpire(t: Thread)

  /** Only an existing thread that is not asleep runs; only a sleeping thread's timer expires. */
  predicate Enabled(s: State, op: Op) {
    match op
    case DoTake(t, _) => t < |s.cur| && t !in s.waiting
    case DoRelease(t) => t < |s.cur| && t !in s.waiting
    case DoExpire(t) => t in s.waiting
  }

  /** The 8-bit `hold` would wrap: the owner takes once too often. */
  predicate Overflows(s: State, op: Op) {
    op.DoTake? && s.owner == Some(op.t) && s.hold == UINT8 - 1
  }

  function Step(flag: Flag, s: State, op: Op): State {
    match op
    case DoTake(t, time) => Take(flag, s, t, time).0
    case DoRelease(t) => Release(s, t).0
    case DoExpire(t) => Expire(s, t)
  }

  // ----- what every step keeps

  /** Ownership and priorities, for either queueing discipline. */
  ghost predicate Core(base: Priorities, s: State) {
    && |s.cur| == |base|
    && s.hold < UINT8
    && (s.value == 1 <==> s.owner.None?) && (s.owner.None? <==> s.hold == 0) && s.value <= 1
    && Distinct(s.waiting) && (forall w :: w in s.waiting ==> w < |base|)
    && (s.owner.None? ==> s.waiting == [] && s.original == 0xFF && s.cur == base)
    && (s.owner.Some? ==>
          var o := s.owner.value;
          && o < |base| && o !in s.waiting && s.original == base[o] && s.cur[o] <= base[o]
          && forall t :: 0 <= t < |base| && t != o ==> s.cur[t] == base[t])
  }

  /** The owner runs at least as urgently as everyone it keeps waiting. */
  ghost predicate Inherits(s: State) {
    s.owner.Some? ==> forall w :: w in s.waiting ==> PriorityOf(s.cur, s.owner.value) <= PriorityOf(s.cur, w)
  }

  /** The invariant of a PRIO mutex. */
  ghost predicate Inv(base: Priorities, s: State) {
    Core(base, s) && Inherits(s) && Sorted(Keys(s.cur, s.waiting))
  }

  lemma TakeKeepsCore(base: Priorities, flag: Flag, s: State, t: Thread, time: int)
    requires Core(base, s) && Enabled(s, DoTake(t, time)) && !Overflows(s, DoTake(t, time))
    ensures Core(base, Take(flag, s, t, time).0)
  {
    if s.value == 0 && s.owner != Some(t) && time != 0 {
      var cur := Boost(s.cur, s.owner, PriorityOf(s.cur, t));
      SuspendMembers(cur, flag, s.waiting, t);
    }
  }

  lemma ReleaseKeepsCore(base: Priorities, s: State, t: Thread)
    requires Core(base, s) && Enabled(s, DoRelease(t))
    ensures Core(base, Release(s, t).0)
  {
    if s.owner == Some(t) && Dec8(s.hold) == 0 {
      var cur := Restore(s.cur, t, s.original);
      assert cur == base;
      if s.waiting != [] {
        assert s.waiting[0] in s.waiting;
        assert forall w :: w in s.waiting[1..] ==> w in s.waiting;
      }
    }
  }

  lemma ExpireKeepsCore(base: Priorities, s: State, t: Thread)
    requires Core(base, s) && t in s.waiting
    ensures Core(base, Expire(s, t))
  {
    WithoutMembers(s.waiting, t);
  }

  /** Every step of a mutex, FIFO or PRIO, keeps the ownership invariant. */
  lemma StepKeepsCore(base: Priorities, flag: Flag, s: State, op: Op)
    requires Core(base, s) && Enabled(s, op) && !Overflows(s, op)
    ensures Core(base, Step(flag, s, op))
  {
    match op
    case DoTake(t, time) => TakeKeepsCore(base, flag, s, t, time);
    case DoRelease(t) => ReleaseKeepsCore(base, s, t);
    case DoExpire(t) => ExpireKeepsCore(base, s, t);
  }

  /** Suspension with inheritance: the caller is queued in order and the owner is at least as urgent. */
  lemma BlockKeepsInv(base: Priorities, s: State, t: Thread)
    requires Inv(base, s) && s.owner.Some? && s.owner != Some(t) && t < |s.cur| && t !in s.waiting
    ensures var cur := Boost(s.cur, s.owner, PriorityOf(s.cur, t));
            var q := Suspend(cur, Prio, s.waiting, t);
            Sorted(Keys(cur, q)) && forall w :: w in q ==> PriorityOf(cur, s.owner.value) <= PriorityOf(cur, w)
  {
    var cur := Boost(s.cur, s.owner, PriorityOf(s.cur, t));
    assert Keys(cur, s.waiting) == Keys(s.cur, s.waiting);
    SuspendSorted(cur, s.waiting, t);
    SuspendMembers(cur, Prio, s.waiting, t);
  }

  lemma StepKeepsInv(base: Priorities, s: State, op: Op)
    requires Inv(base, s) && Enabled(s, op) && !Overflows(s, op)
    ensures Inv(base, Step(Prio, s, op))
  {
    StepKeepsCore(base, Prio, s, op);
    match op
    case DoTake(t, time) =>
      if s.value == 0 && s.owner != Some(t) && time != 0 { BlockKeepsInv(base, s, t); }
    case DoRelease(t) =>
      if s.owner == Some(t) && Dec8(s.hold) == 0 && s.waiting != [] { HandOffKeepsInv(base, s, t); }
    case DoExpire(t) =>
      WithoutMembers(s.waiting, t);
      WithoutSorted(s.cur, s.waiting, t);
  }

  lemma SortedFirst(s: State)
    requires Sorted(Keys(s.cur, s.waiting))
    ensures FirstIsMostUrgent(s)
  {
    var keys := Keys(s.cur, s.waiting);
    forall w | w in s.waiting ensures PriorityOf(s.cur, s.waiting[0]) <= PriorityOf(s.cur, w) {
      var i :| 0 <= i < |s.waiting| && s.waiting[i] == w;
      assert keys[0] <= keys[i];
    }
  }

  lemma KeysUnaffected(cur: Priorities, o: Thread, p: nat, q: seq<Thread>)
    requires o !in q
    ensures Keys(Restore(cur, o, p), q) == Keys(cur, q)
  {
    assert forall i :: 0 <= i < |q| ==> q[i] in q;
  }

  /** The first of a sorted list is at least as urgent as the rest, so the new owner needs no boost. */
  lemma HandOffKeepsInv(base: Priorities, s: State, t: Thread)
    requires Inv(base, s) && s.owner == Some(t) && Dec8(s.hold) == 0 && s.waiting != []
    ensures var r := Release(s, t).0;
            Inherits(r) && Sorted(Keys(r.cur, r.waiting))
  {
    SortedFirst(s);
    HandOffInheritsIff(base, s, t);
    WithoutSorted(s.cur, s.waiting, t);
    KeysUnaffected(s.cur, t, s.original, s.waiting[1..]);
  }

  /** A finite run from the initial state, in which `hold` never wraps. */
  ghost predicate IsRun(flag: Flag, base: Priorities, trace: seq<State>, ops: seq<Op>) {
    && |trace| == |ops| + 1 && trace[0] == Init(base)
    && forall i :: 0 <= i < |ops| ==>
         Enabled(trace[i], ops[i]) && !Overflows(trace[i], ops[i]) && trace[i + 1] == Step(flag, trace[i], ops[i])
  }

  /**
   * Over every run of a PRIO mutex: value, owner and hold agree; the owner is
   * never waiting and never less urgent than a waiter; its saved priority is its
   * base priority; and everyone else runs at base priority.
   */
  lemma {:induction false} RunKeepsInv(base: Priorities, trace: seq<State>, ops: seq<Op>, k: nat)
    requires IsRun(Prio, base, trace, ops) && k < |trace|
    ensures Inv(base, trace[k])
  {
    if k > 0 {
      RunKeepsInv(base, trace, ops, k - 1);
      StepKeepsInv(base, trace[k - 1], ops[k - 1]);
    }
  }

  /** Over every run, FIFO or PRIO: ownership, and no boost outlives the final release. */
  lemma {:induction false} RunKeepsCore(flag: Flag, base: Priorities, trace: seq<State>, ops: seq<Op>, k: nat)
    requires IsRun(flag, base, trace, ops) && k < |trace|
    ensures Core(base, trace[k])
  {
    if k > 0 {
      RunKeepsCore(flag, base, trace, ops, k - 1);
      StepKeepsCore(base, flag, trace[k - 1], ops[k - 1]);
    }
  }

  // ----- what a call answers

  function Lower(a: nat, b: nat): nat { if a < b then a else b }

  /**
   * A take: by the owner it nests; of a free mutex it makes the caller the owner; otherwise it is
   * refused or sleeps, by its time, and then the owner runs at the more urgent of the two priorities.
   */
  lemma TakeLaw(base: Priorities, flag: Flag, s: State, t: Thread, time: int)
    requires Core(base, s) && Enabled(s, DoTake(t, time)) && !Overflows(s, DoTake(t, time))
    ensures var (r, status) := Take(flag, s, t, time);
            && (status == Ok <==> s.owner == Some(t) || s.owner == None)
            && (status == TimedOut <==> s.owner.Some? && s.owner != Some(t) && time == 0)
            && (status == Blocked <==> s.owner.Some? && s.owner != Some(t) && time != 0)
            && (s.owner == Some(t) ==> r == s.(hold := s.hold + 1))
            && (s.owner == None ==> r == State(0, 1, Some(t), base[t], [], base))
            && (status == TimedOut ==> r == s)
            && (status == Blocked ==>
                  var o := s.owner.value;
                  && r == s.(waiting := r.waiting, cur := r.cur) && Joins(s.waiting, t, r.waiting)
                  && r.cur == s.cur[o := Lower(s.cur[o], s.cur[t])])
  {
    var r := Take(flag, s, t, time).0;
    SuspendJoins(Boost(s.cur, s.owner, PriorityOf(s.cur, t)), flag, s.waiting, t);
    if s.owner.Some? && s.owner != Some(t) && time != 0 {
      assert r.cur == s.cur[s.owner.value := Lower(s.cur[s.owner.value], s.cur[t])];
    }
  }

  /**
   * A release: a non-owner is refused; an inner one takes one hold off; the last one frees the mutex,
   * or hands it to the first waiter, and either way the releaser is back at its base priority.
   */
  lemma ReleaseLaw(base: Priorities, s: State, t: Thread)
    requires Core(base, s) && t < |base|
    ensures var (r, status) := Release(s, t);
            && (status == Refused <==> s.owner != Some(t)) && (status == Ok <==> s.owner == Some(t))
            && (s.owner != Some(t) ==> r == s)
            && (s.owner == Some(t) && s.hold > 1 ==> r == s.(hold := s.hold - 1))
            && (s.owner == Some(t) && s.hold == 1 && s.waiting == [] ==> r == Init(base))
            && (s.owner == Some(t) && s.hold == 1 && s.waiting != [] ==>
                  var next := s.waiting[0];
                  next < |base| && r == State(0, 1, Some(next), base[next], s.waiting[1..], base))
  {
    var r := Release(s, t).0;
    if s.owner == Some(t) && s.hold == 1 { assert Restore(s.cur, t, s.original) == base; }
    if s.waiting != [] { assert s.waiting[0] in s.waiting; }
  }

  /** The state after `n` takes by one thread of a free mutex. */
  function Held(base: Priorities, t: Thread, n: nat): State
    requires t < |base|
  {
    if n == 0 then Init(base) else State(0, n, Some(t), base[t], [], base)
  }

  lemma HeldStep(flag: Flag, base: Priorities, t: Thread, time: int, n: nat)
    requires t < |base| && n <= 255
    ensures n < 255 ==> Take(flag, Held(base, t, n), t, time).0 == Held(base, t, n + 1)
    ensures n > 0 ==> Release(Held(base, t, n), t).0 == Held(base, t, n - 1)
  {
    if n == 1 { assert Restore(base, t, base[t]) == base; }
  }

  /** `n` takes and then `n` releases. */
  ghost predicate TakesThenReleases(ops: seq<Op>, t: Thread, n: nat) {
    && |ops| == 2 * n
    && (forall i :: 0 <= i < n ==> ops[i].DoTake? && ops[i].t == t)
    && (forall i :: n <= i < 2 * n ==> ops[i] == DoRelease(t))
  }

  /** How deep the mutex is held after `i` of them. */
  function Depth(n: nat, i: nat): nat { if i <= n then i else if i <= 2 * n then 2 * n - i else 0 }

  lemma {:induction false} NestedRun(flag: Flag, base: Priorities, trace: seq<State>, ops: seq<Op>, t: Thread, n: nat, k: nat)
    requires IsRun(flag, base, trace, ops) && t < |base| && n <= 255 && TakesThenReleases(ops, t, n) && k <= 2 * n
    ensures trace[k] == Held(base, t, Depth(n, k))
  {
    if k > 0 {
      NestedRun(flag, base, trace, ops, t, n, k - 1);
      assert trace[k] == Step(flag, trace[k - 1], ops[k - 1]);
      HeldStep(flag, base, t, if ops[k - 1].DoTake? then ops[k - 1].time else 0, Depth(n, k - 1));
    }
  }

  /** Any run of `n` takes and then `n` releases by one thread, `n` up to 255, ends where it began. */
  lemma TakeAndGiveBack(flag: Flag, base: Priorities, trace: seq<State>, ops: seq<Op>, t: Thread, n: nat)
    requires IsRun(flag, base, trace, ops) && t < |base| && n <= 255 && TakesThenReleases(ops, t, n)
    ensures trace[2 * n] == Init(base)
  {
    NestedRun(flag, base, trace, ops, t, n, 2 * n);
  }

  function HeldTrace(base: Priorities, t: Thread, n: nat): (trace: seq<State>)
    requires t < |base|
    ensures |trace| == 2 * n + 1 && forall i :: 0 <= i <= 2 * n ==> trace[i] == Held(base, t, Depth(n, i))
  {
    seq(2 * n + 1, i requires 0 <= i <= 2 * n => Held(base, t, Depth(n, i)))
  }

  function HeldOps(t: Thread, n: nat, time: int): (ops: seq<Op>)
    ensures |ops| == 2 * n && forall i :: 0 <= i < 2 * n ==> ops[i] == if i < n then DoTake(t, time) else DoRelease(t)
  {
    seq(2 * n, i => if i < n then DoTake(t, time) else DoRelease(t))
  }

  /** There is such a run for every thread and every depth up to 255. */
  lemma TakeAndGiveBackRuns(flag: Flag, base: Priorities, t: Thread, n: nat, time: int)
    requires t < |base| && n <= 255
    ensures IsRun(flag, base, HeldTrace(base, t, n), HeldOps(t, n, time)) && TakesThenReleases(HeldOps(t, n, time), t, n)
  {
    var trace, ops := HeldTrace(base, t, n), HeldOps(t, n, time);
    assert trace[0] == Held(base, t, Depth(n, 0));
    forall i | 0 <= i < |ops|
      ensures Enabled(trace[i], ops[i]) && !Overflows(trace[i], ops[i]) && trace[i + 1] == Step(flag, trace[i], ops[i])
    {
      HeldStep(flag, base, t, time, Depth(n, i));
      assert trace[i] == Held(base, t, Depth(n, i)) && trace[i + 1] == Held(base, t, Depth(n, i + 1));
    }
  }

  // ----- where the promises end

  /** The bound on nested takes is exact: the 256th wraps `hold` to zero under an owner. */
  lemma NestingBound(base: Priorities, flag: Flag, s: State, t: Thread, time: int)
    requires Core(base, s) && s.owner == Some(t)
    ensures Core(base, Take(flag, s, t, time).0) <==> s.hold < UINT8 - 1
  {
  }

  /** The state after `n` takes by thread 0, the only thread, of priority 10. */
  function Nested(n: nat): State {
    if n == 0 then Init([10]) else State(0, n, Some(0), 10, [], [10])
  }

  function NestedTrace(n: nat): (trace: seq<State>)
    ensures |trace| == n + 1 && forall i :: 0 <= i <= n ==> trace[i] == Nested(i)
  {
    seq(n + 1, i requires 0 <= i <= n => Nested(i))
  }

  /** The bound is reached: 255 nested takes are a run, and the next one breaks the invariant. */
  lemma HoldWraps(flag: Flag)
    ensures var trace, ops := NestedTrace(255), seq(255, i => DoTake(0, -1));
            && IsRun(flag, [10], trace, ops) && trace[255].hold == 255
            && !Core([10], Take(flag, trace[255], 0, -1).0)
  {
    var trace, ops := NestedTrace(255), seq(255, i => DoTake(0, -1));
    forall i | 0 <= i < 255
      ensures Enabled(trace[i], ops[i]) && !Overflows(trace[i], ops[i]) && trace[i + 1] == Step(flag, trace[i], ops[i])
    {
      assert trace[i] == Nested(i) && trace[i + 1] == Nested(i + 1);
    }
  }

  /** Is the first waiter as urgent as all the others? */
  predicate FirstIsMostUrgent(s: State) {
    s.waiting != [] ==> forall w :: w in s.waiting ==> PriorityOf(s.cur, s.waiting[0]) <= PriorityOf(s.cur, w)
  }

  /** Handing over keeps inheritance exactly when the first waiter is a most urgent one. */
  lemma HandOffInheritsIff(base: Priorities, s: State, t: Thread)
    requires Core(base, s) && s.owner == Some(t) && s.hold == 1
    ensures Inherits(Release(s, t).0) <==> FirstIsMostUrgent(s)
  {
    var r := Release(s, t).0;
    assert r.cur == base;
    if s.waiting != [] {
      assert forall i :: 0 <= i < |s.waiting| ==> s.waiting[i] in s.waiting;
      assert forall w :: w in s.waiting <==> w == s.waiting[0] || w in r.waiting;
    }
  }

  /** Three threads: 0 owns, then 1 and the most urgent 2 queue up. */
  function FifoScene(): State {
    Take(Fifo, Take(Fifo, Take(Fifo, Init([10, 20, 5]), 0, -1).0, 1, -1).0, 2, -1).0
  }

  lemma FifoSceneIs()
    ensures FifoScene() == State(0, 1, Some(0), 10, [1, 2], [5, 20, 5])
  {
    var s1 := Take(Fifo, Init([10, 20, 5]), 0, -1).0;
    assert s1 == State(0, 1, Some(0), 10, [], [10, 20, 5]);
    var s2 := Take(Fifo, s1, 1, -1).0;
    assert s2 == State(0, 1, Some(0), 10, [1], [10, 20, 5]);
  }

  /** A FIFO mutex can hand over past a more urgent waiter, which then waits behind a less urgent owner. */
  lemma FifoInverts()
    ensures Inherits(FifoScene()) && !Inherits(Release(FifoScene(), 0).0)
  {
    FifoSceneIs();
    var r := Release(FifoScene(), 0).0;
    assert r.waiting == [2] && 2 in r.waiting && r.cur == [10, 20, 5];
  }

  // ----- the object

  class MutexObject {
    const flag: Flag
    const list: WaitQueue
    ghost const base: Priorities
    var value: nat
    var hold: nat
    var owner: Option<Thread>
    var original: nat

    ghost function View(): State
      reads this, list, list.threads
    {
      State(value, hold, owner, original, list.Waiting(), list.Urgency())
    }

    /** The invariant of its discipline. */
    ghost predicate Sound()
      reads this, list, list.threads
    {
      Core(base, View()) && (flag.Prio? ==> Inv(base, View()))
    }

    ghost predicate Valid()
      reads this, list, list.head, list.threads, list.q
    {
      list.Valid() && Sound()
    }

    /** `rt_mutex_init`, every thread running at its base priority. */
    constructor (flag: Flag, threads: seq<Ring.Node>)
      requires Table(threads)
      ensures Valid() && this.flag == flag && list.threads == threads && View() == Init(base)
    {
      this.flag, base := flag, Urgencies(threads);
      value, owner, original, hold := 1, None, 0xFF, 0;
      list := new WaitQueue(threads);
    }

    ghost predicate SoundStep(s: State, op: Op) {
      Core(base, s) && (flag.Prio? ==> Inv(base, s)) && Enabled(s, op) && !Overflows(s, op)
    }

    lemma StepIsSound(s: State, op: Op)
      requires SoundStep(s, op)
      ensures Core(base, Step(flag, s, op)) && (flag.Prio? ==> Inv(base, Step(flag, s, op)))
    {
      StepKeepsCore(base, flag, s, op);
      if flag.Prio? { StepKeepsInv(base, s, op); }
    }

    /** `rt_thread_control` on the owner, if the caller is more urgent. */
    method BoostOwner(thread: Thread)
      requires list.Valid() && thread < |list.threads| && owner.Some? && owner.value < |list.threads|
      modifies list.threads`priority
      ensures list.Valid() && list.Waiting() == old(list.Waiting())
      ensures list.Urgency() == Boost(old(list.Urgency()), owner, PriorityOf(old(list.Urgency()), thread))
    {
      var p := list.threads[thread].priority;
      if p < list.threads[owner.value].priority { list.SetPriority(owner.value, p); }
    }

    /** The mutex is unavailable: inheritance, then the wait list. */
    method Block(thread: Thread)
      requires list.Valid() && thread < |list.threads| && thread !in list.Waiting()
      requires owner.Some? && owner.value < |list.threads|
      modifies list`q, list.head`next, list.head`prev, list.q`next, list.q`prev, list.NodeOf(thread)`next, list.NodeOf(thread)`prev, list.threads`priority
      ensures list.Valid()
      ensures var cur := Boost(old(list.Urgency()), owner, PriorityOf(old(list.Urgency()), thread));
              list.Urgency() == cur && list.Waiting() == Suspend(cur, flag, old(list.Waiting()), thread)
    {
      BoostOwner(thread);
      list.Suspend(thread, flag);
    }

    /** The critical section of `rt_mutex_take`; only a take past 255 nested ones breaks the invariant. */
    method TakeSection(thread: Thread, time: int) returns (status: Status)
      requires Valid() && Enabled(View(), DoTake(thread, time))
      modifies this`value, this`hold, this`owner, this`original, list`q, list.head`next, list.head`prev
      modifies list.q`next, list.q`prev, list.NodeOf(thread)`next, list.NodeOf(thread)`prev, list.threads`priority
      ensures list.Valid() && (View(), status) == Take(flag, old(View()), thread, time)
      ensures !Overflows(old(View()), DoTake(thread, time)) ==> Sound()
    {
      ghost var before := View();
      if !Overflows(before, DoTake(thread, time)) { StepIsSound(before, DoTake(thread, time)); }
      status := Ok;
      if owner == Some(thread) {
        hold := Inc8(hold);
      } else if value > 0 {
        value := Dec16(value);
        owner := Some(thread);
        original := list.threads[thread].priority;
        hold := Inc8(hold);
      } else if time == 0 {
        status := TimedOut;
      } else {
        Block(thread);
        status := Blocked;
      }
    }

    /** The owner goes back to the priority it had. */
    method RestoreOwner(thread: Thread)
      requires list.Valid() && thread < |list.threads|
      modifies list.threads`priority
      ensures list.Valid() && list.Waiting() == old(list.Waiting())
      ensures list.Urgency() == Restore(old(list.Urgency()), thread, original)
    {
      if original != list.threads[thread].priority { list.SetPriority(thread, original); }
    }

    /** The first waiter becomes the owner. */
    method PassOn()
      requires list.Valid() && list.Waiting() != []
      modifies this`hold, this`owner, this`original, list`q, list.head`next, list.head`prev
      modifies list.q`next, list.q`prev
      ensures list.Valid() && list.Urgency() == old(list.Urgency()) && list.Waiting() == old(list.Waiting())[1..]
      ensures owner == Some(old(list.Waiting())[0]) && hold == Inc8(old(hold))
      ensures original == PriorityOf(old(list.Urgency()), old(list.Waiting())[0])
    {
      var next := list.ResumeFirst();
      owner := Some(next);
      original := list.threads[next].priority;
      hold := Inc8(hold);
    }

    /** The last hold is given up: the priority goes back, and the first waiter, if any, becomes the owner. */
    method HandOver(thread: Thread)
      requires list.Valid() && thread < |list.threads|
      modifies this`value, this`hold, this`owner, this`original, list`q, list.head`next, list.head`prev
      modifies list.q`next, list.q`prev, list.threads`priority
      ensures list.Valid() && list.Urgency() == Restore(old(list.Urgency()), thread, old(original))
      ensures old(list.Waiting()) == [] ==>
                value == Inc16(old(value)) && owner == None && original == 0xFF && hold == old(hold) && list.Waiting() == []
      ensures old(list.Waiting()) != [] ==>
                && value == old(value) && owner == Some(old(list.Waiting())[0]) && hold == Inc8(old(hold))
                && original == PriorityOf(list.Urgency(), old(list.Waiting())[0]) && list.Waiting() == old(list.Waiting())[1..]
    {
      RestoreOwner(thread);
      var empty := list.IsEmpty();
      if !empty {
        PassOn();
      } else {
        value := Inc16(value);
        owner := None;
        original := 0xFF;
      }
    }

    /** The critical section of `rt_mutex_release`. */
    method ReleaseSection(thread: Thread) returns (status: Status)
      requires Valid() && Enabled(View(), DoRelease(thread))
      modifies this`value, this`hold, this`owner, this`original, list`q, list.head`next, list.head`prev
      modifies list.q`next, list.q`prev, list.threads`priority
      ensures Valid() && (View(), status) == Release(old(View()), thread)
    {
      StepIsSound(View(), DoRelease(thread));
      if owner != Some(thread) { return Refused; }
      status := Ok;
      hold := Dec8(hold);
      if hold == 0 { HandOver(thread); }
    }

    /** `rt_thread_timeout` of a thread sleeping here. */
    method ExpireSection(thread: Thread)
      requires Valid() && thread in list.Waiting()
      modifies list`q, list.head`next, list.head`prev, list.q`next, list.q`prev
      ensures Valid() && View() == Expire(old(View()), thread)
    {
      StepIsSound(View(), DoExpire(thread));
      list.Leave(thread);
    }
  }
}
