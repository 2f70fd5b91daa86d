/** The hand-off semaphore: `rt_sem_take`, `rt_sem_release` and RESET. */
module Semaphore {
  import opened Kernel
  import opened Common
  import opened WaitList
  import opened ThreadList
  import Ring

  datatype State = State(value: nat, waiting: seq<Thread>)

  // ----- the critical sections

  function Take(flag: Flag, ps: Priorities, s: State, t: Thread, time: int): (State, Status) {
    if s.value > 0 then (s.(value := Dec16(s.value)), Ok)
    else if time == 0 then (s, TimedOut)
    else (s.(waiting := Suspend(ps, flag, s.waiting, t)), Blocked)
  }

  /** With a sleeper the unit is handed over and the count stays; otherwise the 16-bit count grows. */
  function Release(s: State): State {
    if s.waiting != [] then s.(waiting := s.waiting[1..]) else s.(value := Inc16(s.value))
  }

  function Expire(s: State, t: Thread): State {
    s.(waiting := Without(s.waiting, t))
  }

  /** RESET wakes every sleeper with an error and stores the 16-bit count. */
  function Reset(s: State, value: nat): State {
    State(value % UINT16, [])
  }

  // ----- runs with a ledger

  /** What has happened since the last reset: units put in, units granted, wraps of the counter. */
  datatype Ledger = Ledger(initial: nat, released: nat, granted: nat, wraps: nat)

  datatype Run = Run(s: State, book: Ledger)

  datatype Op =
    | DoTake(ps: Priorities, t: Thread, time: int)
    | DoRelease
    | DoExpire(t: Thread)
    | DoReset(value: nat)

  predicate Enabled(s: State, op: Op) {
    match op
    case DoTake(_, t, _) => t !in s.waiting
    case DoRelease => true
    case DoExpire(t) => t in s.waiting
    case DoReset(_) => true
  }

  /** A release that nobody waits for, at the top of the 16-bit range. */
  predicate Wraps(s: State) {
    s.waiting == [] && s.value == UINT16 - 1
  }

  function Step(flag: Flag, r: Run, op: Op): Run {
    match op
    case DoTake(ps, t, time) =>
      var (s, status) := Take(flag, ps, r.s, t, time);
      Run(s, if status == Ok then r.book.(granted := r.book.granted + 1) else r.book)
    case DoRelease =>
      var b := r.book.(released := r.book.released + 1);
      Run(Release(r.s),
          if r.s.waiting != [] then b.(granted := b.granted + 1)
          else if Wraps(r.s) then b.(wraps := b.wraps + 1)
          else b)
    case DoExpire(t) => Run(Expire(r.s, t), r.book)
    case DoReset(value) => Run(Reset(r.s, value), Ledger(value % UINT16, 0, 0, 0))
  }

  ghost predicate Inv(r: Run) {
    && r.s.value < UINT16 && Distinct(r.s.waiting)
    && (r.s.value > 0 ==> r.s.waiting == [])
    && r.s.value + r.book.granted + r.book.wraps * UINT16 == r.book.initial + r.book.released
  }

  lemma StepKeepsInv(flag: Flag, r: Run, op: Op)
    requires Inv(r) && Enabled(r.s, op)
    ensures Inv(Step(flag, r, op))
  {
    match op
    case DoTake(ps, t, time) => SuspendMembers(ps, flag, r.s.waiting, t);
    case DoRelease =>
    case DoExpire(t) => WithoutMembers(r.s.waiting, t);
    case DoReset(value) =>
  }

  function Init(value: nat): Run {
    Run(State(value % UINT16, []), Ledger(value % UINT16, 0, 0, 0))
  }

  ghost predicate IsRun(flag: Flag, value: nat, trace: seq<Run>, ops: seq<Op>) {
    && |trace| == |ops| + 1 && trace[0] == Init(value)
    && forall i :: 0 <= i < |ops| ==> Enabled(trace[i].s, ops[i]) && trace[i + 1] == Step(flag, trace[i], ops[i])
  }

  /**
   * Over every run: nobody waits while units are left, and between resets
   * value plus grants equals initial value plus releases, up to 65536 for each
   * wrap of the counter; so conservation is exact precisely when nothing wrapped.
   */
  lemma {:induction false} RunConserves(flag: Flag, value: nat, trace: seq<Run>, ops: seq<Op>, k: nat)
    requires IsRun(flag, value, trace, ops) && k < |trace|
    ensures Inv(trace[k])
    ensures var r := trace[k];
            r.s.value + r.book.granted == r.book.initial + r.book.released <==> r.book.wraps == 0
  {
    if k > 0 {
      RunConserves(flag, value, trace, ops, k - 1);
      StepKeepsInv(flag, trace[k - 1], ops[k - 1]);
    }
  }

  // ----- what a call answers

  /** A take is granted exactly when a unit is left; it is refused or sleeps, by its time, exactly when none is. */
  lemma TakeLaw(flag: Flag, ps: Priorities, s: State, t: Thread, time: int)
    requires s.value < UINT16
    ensures var (r, status) := Take(flag, ps, s, t, time);
            && (status == Ok <==> s.value > 0)
            && (status == TimedOut <==> s.value == 0 && time == 0)
            && (status == Blocked <==> s.value == 0 && time != 0)
            && (status == Ok ==> r.value == s.value - 1 && r.waiting == s.waiting)
            && (status == TimedOut ==> r == s)
            && (status == Blocked ==> r.value == 0 && Joins(s.waiting, t, r.waiting))
  {
    SuspendJoins(ps, flag, s.waiting, t);
  }

  /** A release wakes the first sleeper, who has the unit; with nobody asleep it is counted, modulo 2^16. */
  lemma ReleaseLaw(s: State)
    requires s.value < UINT16
    ensures var r := Release(s);
            && (s.waiting != [] ==> r.value == s.value && s.waiting == [s.waiting[0]] + r.waiting)
            && (s.waiting == [] ==> r.waiting == [])
            && (s.waiting == [] && s.value < UINT16 - 1 ==> r.value == s.value + 1)
            && (s.waiting == [] && s.value == UINT16 - 1 ==> r.value == 0)
  {
  }

  /** RESET leaves nobody asleep and the asked count, cut to 16 bits. */
  lemma ResetLaw(s: State, value: nat)
    ensures Reset(s, value).waiting == [] && (value < UINT16 ==> Reset(s, value).value == value)
  {
  }

  /** In any run, a unit released while nobody sleeps and then taken is granted, whatever the time, and all is as before. */
  lemma ReleasedIsGranted(flag: Flag, value: nat, trace: seq<Run>, ops: seq<Op>, k: nat)
    requires IsRun(flag, value, trace, ops) && k + 2 < |trace| && ops[k] == DoRelease && ops[k + 1].DoTake?
    requires trace[k].s.waiting == [] && !Wraps(trace[k].s)
    ensures var op := ops[k + 1];
            && Take(flag, op.ps, trace[k + 1].s, op.t, op.time).1 == Ok
            && trace[k + 2].s == trace[k].s && trace[k + 2].book.granted == trace[k].book.granted + 1
  {
    RunConserves(flag, value, trace, ops, k);
    assert trace[k + 1] == Step(flag, trace[k], ops[k]);
    assert trace[k + 2] == Step(flag, trace[k + 1], ops[k + 1]);
    ReleaseLaw(trace[k].s);
    TakeLaw(flag, ops[k + 1].ps, trace[k + 1].s, ops[k + 1].t, ops[k + 1].time);
  }

  /** In any run, a release while somebody sleeps hands the unit to the first of them. */
  lemma ReleasedIsHandedOver(flag: Flag, value: nat, trace: seq<Run>, ops: seq<Op>, k: nat)
    requires IsRun(flag, value, trace, ops) && k + 1 < |trace| && ops[k] == DoRelease && trace[k].s.waiting != []
    ensures trace[k].s.waiting == [trace[k].s.waiting[0]] + trace[k + 1].s.waiting
    ensures trace[k].s.value == trace[k + 1].s.value == 0 && trace[k + 1].book.granted == trace[k].book.granted + 1
  {
    RunConserves(flag, value, trace, ops, k);
    assert trace[k + 1] == Step(flag, trace[k], ops[k]);
  }

  /** The bound is reached: a semaphore that starts at the top of its range wraps on the first release. */
  lemma WrapReached(flag: Flag)
    ensures var trace := [Init(UINT16 - 1), Step(flag, Init(UINT16 - 1), DoRelease)];
            && IsRun(flag, UINT16 - 1, trace, [DoRelease])
            && trace[1].s.value == 0 && trace[1].book == Ledger(UINT16 - 1, 1, 0, 1)
  {
  }

  // ----- the object

  class SemaphoreObject {
    const flag: Flag
    const list: WaitQueue
    var value: nat
    ghost var book: Ledger

    ghost function View(): Run
      reads this, list
    {
      Run(State(value, list.Waiting()), book)
    }

    /** The list is well linked, and the books are balanced. */
    ghost predicate Valid()
      reads this, list, list.head, list.q
    {
      list.Valid() && Inv(View())
    }

    /** `rt_sem_init`, which asserts a 16-bit initial value. */
    constructor (flag: Flag, value: nat, threads: seq<Ring.Node>)
      requires value < UINT16 && Table(threads)
      ensures Valid() && this.flag == flag && list.threads == threads && View() == Init(value)
    {
      this.flag, this.value, this.book := flag, value, Ledger(value % UINT16, 0, 0, 0);
      list := new WaitQueue(threads);
    }

    /** The critical section of `rt_sem_take`. */
    method TakeSection(thread: Thread, time: int) returns (status: Status)
      requires Valid() && thread < |list.threads| && thread !in list.Waiting()
      modifies this`value, this`book, list`q, list.head`next, list.head`prev, list.q`next, list.q`prev, list.NodeOf(thread)`next, list.NodeOf(thread)`prev
      ensures Valid() && View() == Step(flag, old(View()), DoTake(old(list.Urgency()), thread, time))
      ensures status == Take(flag, old(list.Urgency()), old(View()).s, thread, time).1
    {
      StepKeepsInv(flag, View(), DoTake(list.Urgency(), thread, time));
      if value > 0 {
        value := Dec16(value);
        book := book.(granted := book.granted + 1);
        status := Ok;
      } else if time == 0 {
        status := TimedOut;
      } else {
        list.Suspend(thread, flag);
        status := Blocked;
      }
    }

    /** `rt_sem_release`; the woken thread, if any. */
    method ReleaseSection() returns (woken: Option<Thread>)
      requires Valid()
      modifies this`value, this`book, list`q, list.head`next, list.head`prev, list.q`next, list.q`prev
      ensures Valid() && View() == Step(flag, old(View()), DoRelease)
      ensures woken == if old(list.Waiting()) == [] then None else Some(old(list.Waiting())[0])
    {
      StepKeepsInv(flag, View(), DoRelease);
      ghost var before := View();
      book := Step(flag, before, DoRelease).book;
      woken := None;
      var empty := list.IsEmpty();
      if !empty {
        var t := list.ResumeFirst();
        woken := Some(t);
      } else {
        value := Inc16(value);
      }
    }

    /** `rt_sem_control` with RESET. */
    method ResetSection(v: nat) returns (woken: seq<Thread>)
      requires Valid()
      modifies this`value, this`book, list`q, list.head`next, list.head`prev, list.q`next, list.q`prev
      ensures Valid() && View() == Step(flag, old(View()), DoReset(v)) && woken == old(list.Waiting())
    {
      StepKeepsInv(flag, View(), DoReset(v));
      book := Ledger(v % UINT16, 0, 0, 0);
      woken := list.ResumeAll();
      value := v % UINT16;
    }

    /** `rt_thread_timeout` of a thread sleeping here. */
    method ExpireSection(thread: Thread)
      requires Valid() && thread in list.Waiting()
      modifies list`q, list.head`next, list.head`prev, list.q`next, list.q`prev
      ensures Valid() && View() == Step(flag, old(View()), DoExpire(thread))
    {
      StepKeepsInv(flag, View(), DoExpire(thread));
      list.Leave(thread);
    }
  }
}
