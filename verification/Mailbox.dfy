/** The mailbox: `rt_mb_send_wait`, `rt_mb_recv` and RESET. */
module Mailbox {
  import opened Kernel
  import opened Common
  import opened WaitList
  import opened Wakeups
  import opened ThreadList
  import Ring

  /** The ring of words, its two offsets, and the sleepers on either side. */
  datatype State = State(pool: seq<nat>, entry: nat, inOff: nat, outOff: nat, receivers: Side, senders: Side)

  function Size(s: State): nat { |s.pool| }

  function Next(off: nat, size: nat): nat { if off + 1 >= size then 0 else off + 1 }

  // ----- the critical sections

  /** The loop test and tail of `rt_mb_send_wait`, for a caller that holds no place in the lists. */
  function Send(flag: Flag, ps: Priorities, s: State, t: Thread, v: nat, timeout: int): (State, Status) {
    if s.entry == Size(s) then
      if timeout == 0 then (s, Full) else (s.(senders := Sleep(ps, flag, s.senders, t)), Blocked)
    else if s.inOff < Size(s) then
      (s.(pool := s.pool[s.inOff := v], inOff := Next(s.inOff, Size(s)), entry := Inc16(s.entry),
          receivers := WakeOne(s.receivers)), Ok)
    else (s, Refused)
  }

  /** The loop test and tail of `rt_mb_recv`; the value is meaningful when the status is `Ok`. */
  function Recv(flag: Flag, ps: Priorities, s: State, t: Thread, timeout: int): (State, Status, nat) {
    if s.entry == 0 then
      if timeout == 0 then (s, TimedOut, 0) else (s.(receivers := Sleep(ps, flag, s.receivers, t)), Blocked, 0)
    else if s.outOff < Size(s) then
      (s.(outOff := Next(s.outOff, Size(s)), entry := Dec16(s.entry), senders := WakeOne(s.senders)), Ok,
       s.pool[s.outOff])
    else (s, Refused, 0)
  }

  function Reset(s: State): State {
    s.(entry := 0, inOff := 0, outOff := 0, receivers := Dismiss(s.receivers), senders := Dismiss(s.senders))
  }

  // ----- the abstract queue

  /** An offset below twice the size, brought back into the ring. */
  function Wrapped(off: nat, size: nat): int { if off < size then off else off - size }

  function Slot(s: State, i: nat): (k: nat)
    requires i < Size(s) && s.outOff < Size(s)
    ensures k < Size(s)
  {
    Wrapped(s.outOff + i, Size(s))
  }

  /** The words in the ring, oldest first. */
  function Contents(s: State): (q: seq<nat>)
    requires s.entry <= Size(s) && (Size(s) > 0 ==> s.outOff < Size(s))
    ensures |q| == s.entry
    ensures forall i :: 0 <= i < s.entry ==> q[i] == s.pool[Slot(s, i)]
  {
    seq(s.entry, i requires 0 <= i < s.entry => s.pool[Slot(s, i)])
  }

  ghost predicate RingInv(s: State) {
    && Size(s) < UINT16 && s.entry <= Size(s)
    && (Size(s) == 0 ==> s.inOff == 0 && s.outOff == 0)
    && (Size(s) > 0 ==> s.inOff < Size(s) && s.outOff < Size(s) && s.inOff == Wrapped(s.outOff + s.entry, Size(s)))
  }

  lemma WrappedIsModulo(a: nat, b: nat, n: nat)
    requires a < n && b <= n
    ensures (a + b) % n == Wrapped(a + b, n)
  {
    if a + b >= n { assert (a + b - n) % n == a + b - n; }
  }

  /** That is: the input offset is the output offset plus the entries, modulo the size. */
  lemma OffsetsModular(s: State)
    requires RingInv(s) && Size(s) > 0
    ensures s.inOff == (s.outOff + s.entry) % Size(s)
  {
    WrappedIsModulo(s.outOff, s.entry, Size(s));
  }

  /** A deposit appends to the abstract queue. */
  lemma SendAppends(flag: Flag, ps: Priorities, s: State, t: Thread, v: nat, timeout: int)
    requires RingInv(s) && s.entry < Size(s)
    ensures var (r, status) := Send(flag, ps, s, t, v, timeout);
            status == Ok && RingInv(r) && Contents(r) == Contents(s) + [v]
  {
    var r := Send(flag, ps, s, t, v, timeout).0;
    assert Slot(r, s.entry) == s.inOff;
  }

  /** A withdrawal takes the oldest word. */
  lemma RecvTakesFirst(flag: Flag, ps: Priorities, s: State, t: Thread, timeout: int)
    requires RingInv(s) && s.entry > 0
    ensures var (r, status, v) := Recv(flag, ps, s, t, timeout);
            status == Ok && RingInv(r) && v == Contents(s)[0] && Contents(r) == Contents(s)[1..]
  {
    var r := Recv(flag, ps, s, t, timeout).0;
    assert Slot(s, 0) == s.outOff;
    assert forall i :: 0 <= i < r.entry ==> Slot(r, i) == Slot(s, i + 1);
  }

  // ----- runs

  datatype Op =
    | EnterSend(ps: Priorities, t: Thread, v: nat, timeout: int)
    | RetrySend(ps: Priorities, t: Thread, timeout: int)
    | EnterRecv(ps: Priorities, t: Thread, timeout: int)
    | RetryRecv(ps: Priorities, t: Thread, timeout: int)
    | DoExpire(t: Thread)
    | DoReset

  /** The object, what each blocked sender carries, and the words that went in and out since the last reset. */
  datatype Run = Run(s: State, carried: map<Thread, nat>, sent: seq<nat>, received: seq<nat>)

  predicate Idle(s: State, t: Thread) { t !in Members(s.receivers) && t !in Members(s.senders) }

  predicate Enabled(r: Run, op: Op) {
    match op
    case EnterSend(_, t, _, _) => Idle(r.s, t)
    case RetrySend(_, t, _) => t in r.s.senders.woken && t in r.carried
    case EnterRecv(_, t, _) => Idle(r.s, t)
    case RetryRecv(_, t, _) => t in r.s.receivers.woken
    case DoExpire(t) => t in r.s.receivers.list || t in r.s.senders.list
    case DoReset => true
  }

  function SendStep(flag: Flag, ps: Priorities, r: Run, t: Thread, v: nat, timeout: int): Run {
    var (s, status) := Send(flag, ps, r.s, t, v, timeout);
    match status
    case Ok => r.(s := s, sent := r.sent + [v])
    case Blocked => r.(s := s, carried := r.carried[t := v])
    case _ => r.(s := s)
  }

  function RecvStep(flag: Flag, ps: Priorities, r: Run, t: Thread, timeout: int): Run {
    var (s, status, v) := Recv(flag, ps, r.s, t, timeout);
    r.(s := s, received := if status == Ok then r.received + [v] else r.received)
  }

  function Step(flag: Flag, r: Run, op: Op): Run
    requires Enabled(r, op)
  {
    match op
    case EnterSend(ps, t, v, timeout) => SendStep(flag, ps, r, t, v, timeout)
    case RetrySend(ps, t, timeout) =>
      SendStep(flag, ps, r.(s := r.s.(senders := Reenter(r.s.senders, t))), t, r.carried[t], timeout)
    case EnterRecv(ps, t, timeout) => RecvStep(flag, ps, r, t, timeout)
    case RetryRecv(ps, t, timeout) =>
      RecvStep(flag, ps, r.(s := r.s.(receivers := Reenter(r.s.receivers, t))), t, timeout)
    case DoExpire(t) =>
      r.(s := if t in r.s.receivers.list then r.s.(receivers := Leave(r.s.receivers, t))
              else r.s.(senders := Leave(r.s.senders, t)))
    case DoReset => Run(Reset(r.s), r.carried, [], [])
  }

  /** What was sent is what was received followed by what is still in the ring. */
  ghost predicate Fifo(r: Run) {
    RingInv(r.s) && r.sent == r.received + Contents(r.s)
  }

  ghost predicate Inv(r: Run) {
    Fifo(r) && Calm(r)
  }

  /** The abstract queue does not depend on who sleeps. */
  lemma SidesDoNotMatter(s: State, receivers: Side, senders: Side)
    requires RingInv(s)
    ensures var r := s.(receivers := receivers, senders := senders);
            RingInv(r) && Contents(r) == Contents(s)
  {
    var r := s.(receivers := receivers, senders := senders);
    assert forall i :: 0 <= i < s.entry ==> Slot(r, i) == Slot(s, i);
  }

  lemma SendKeepsFifo(flag: Flag, ps: Priorities, r: Run, t: Thread, v: nat, timeout: int)
    requires Fifo(r)
    ensures Fifo(SendStep(flag, ps, r, t, v, timeout))
  {
    if r.s.entry == Size(r.s) {
      SidesDoNotMatter(r.s, r.s.receivers, Sleep(ps, flag, r.s.senders, t));
    } else {
      SendAppends(flag, ps, r.s, t, v, timeout);
      assert r.received + Contents(r.s) + [v] == r.received + (Contents(r.s) + [v]);
    }
  }

  lemma RecvKeepsFifo(flag: Flag, ps: Priorities, r: Run, t: Thread, timeout: int)
    requires Fifo(r)
    ensures Fifo(RecvStep(flag, ps, r, t, timeout))
  {
    if r.s.entry == 0 {
      SidesDoNotMatter(r.s, Sleep(ps, flag, r.s.receivers, t), r.s.senders);
    } else {
      RecvTakesFirst(flag, ps, r.s, t, timeout);
      assert r.received + Contents(r.s) == r.received + [Contents(r.s)[0]] + Contents(r.s)[1..];
    }
  }

  /** What the sections need of the counters. */
  ghost predicate InBounds(s: State) {
    s.entry <= Size(s) < UINT16 && (Size(s) > 0 ==> s.inOff < Size(s) && s.outOff < Size(s))
  }

  /** Nobody is lost: receivers against the queued words, senders against the free slots. */
  ghost predicate Calm(r: Run) {
    Settled(r.s.receivers, r.s.senders, r.carried.Keys, {}, r.s.entry, Size(r.s) - r.s.entry)
  }

  lemma CalmWith(r: Run, receivers: Side, senders: Side, holders: set<Thread>, entry: int, free: int)
    requires Settled(receivers, senders, holders, {}, entry, free)
    requires r.s.receivers == receivers && r.s.senders == senders && r.carried.Keys == holders
    requires r.s.entry == entry && Size(r.s) - entry == free
    ensures Calm(r)
  {
  }

  lemma FullKeepsWakeups(flag: Flag, ps: Priorities, r: Run, t: Thread, v: nat, timeout: int)
    requires r.s.entry == Size(r.s) && Calm(r) && Idle(r.s, t)
    ensures Calm(SendStep(flag, ps, r, t, v, timeout))
  {
    var r', s := SendStep(flag, ps, r, t, v, timeout), r.s;
    if timeout == 0 {
      assert r' == r;
    } else {
      SenderSleeps(flag, ps, s.receivers, s.senders, r.carried.Keys, {}, s.entry, t);
      KeysWith(r.carried, t, v);
      CalmWith(r', s.receivers, Sleep(ps, flag, s.senders, t), r.carried.Keys + {t}, s.entry, 0);
    }
  }

  /** A send section by a caller in no list, whose re-entry may have used up one woken sender. */
  lemma SendKeepsWakeups(flag: Flag, ps: Priorities, r: Run, t: Thread, v: nat, timeout: int)
    requires InBounds(r.s) && Apart(r.s.receivers, r.s.senders, r.carried.Keys, {}) && Idle(r.s, t)
    requires NoneLost(r.s.receivers, r.s.entry) && NoneLost(r.s.senders, Size(r.s) - r.s.entry - 1)
    requires r.s.entry == Size(r.s) ==> NoneLost(r.s.senders, 0)
    ensures Calm(SendStep(flag, ps, r, t, v, timeout))
  {
    if r.s.entry == Size(r.s) {
      FullKeepsWakeups(flag, ps, r, t, v, timeout);
    } else {
      var s, free := r.s, Size(r.s) - r.s.entry - 1;
      ReceiverWoken(s.receivers, s.senders, r.carried.Keys, {}, s.entry, free);
      CalmWith(SendStep(flag, ps, r, t, v, timeout), WakeOne(s.receivers), s.senders, r.carried.Keys, s.entry + 1, free);
    }
  }

  lemma RecvKeepsWakeups(flag: Flag, ps: Priorities, r: Run, t: Thread, timeout: int)
    requires InBounds(r.s) && Apart(r.s.receivers, r.s.senders, r.carried.Keys, {}) && Idle(r.s, t)
    requires NoneLost(r.s.receivers, r.s.entry - 1) && NoneLost(r.s.senders, Size(r.s) - r.s.entry)
    requires r.s.entry == 0 ==> NoneLost(r.s.receivers, 0)
    ensures Calm(RecvStep(flag, ps, r, t, timeout))
  {
    var r', s, free := RecvStep(flag, ps, r, t, timeout), r.s, Size(r.s) - r.s.entry;
    if s.entry != 0 {
      SenderWoken(s.receivers, s.senders, r.carried.Keys, {}, s.entry - 1, free);
      CalmWith(r', s.receivers, WakeOne(s.senders), r.carried.Keys, s.entry - 1, free + 1);
    } else if timeout == 0 {
      CalmWith(r', s.receivers, s.senders, r.carried.Keys, 0, free);
    } else {
      ReceiverSleeps(flag, ps, s.receivers, s.senders, r.carried.Keys, {}, free, t);
      CalmWith(r', Sleep(ps, flag, s.receivers, t), s.senders, r.carried.Keys, 0, free);
    }
  }

  lemma RetrySendKeeps(flag: Flag, ps: Priorities, r: Run, t: Thread, timeout: int)
    requires Inv(r) && Enabled(r, RetrySend(ps, t, timeout))
    ensures Inv(Step(flag, r, RetrySend(ps, t, timeout)))
  {
    var senders := Reenter(r.s.senders, t);
    var m := r.(s := r.s.(senders := senders));
    ReenterKeeps(r.s.senders, t, Size(r.s) - r.s.entry);
    SidesDoNotMatter(r.s, r.s.receivers, senders);
    SendKeepsFifo(flag, ps, m, t, r.carried[t], timeout);
    SendKeepsWakeups(flag, ps, m, t, r.carried[t], timeout);
  }

  lemma RetryRecvKeeps(flag: Flag, ps: Priorities, r: Run, t: Thread, timeout: int)
    requires Inv(r) && Enabled(r, RetryRecv(ps, t, timeout))
    ensures Inv(Step(flag, r, RetryRecv(ps, t, timeout)))
  {
    var receivers := Reenter(r.s.receivers, t);
    var m := r.(s := r.s.(receivers := receivers));
    ReenterKeeps(r.s.receivers, t, r.s.entry);
    SidesDoNotMatter(r.s, receivers, r.s.senders);
    RecvKeepsFifo(flag, ps, m, t, timeout);
    RecvKeepsWakeups(flag, ps, m, t, timeout);
  }

  lemma ExpireKeeps(flag: Flag, r: Run, t: Thread)
    requires Inv(r) && Enabled(r, DoExpire(t))
    ensures Inv(Step(flag, r, DoExpire(t)))
  {
    var r', s, free := Step(flag, r, DoExpire(t)), r.s, Size(r.s) - r.s.entry;
    if t in s.receivers.list {
      ReceiverLeaves(s.receivers, s.senders, r.carried.Keys, {}, s.entry, free, t);
      SidesDoNotMatter(s, Leave(s.receivers, t), s.senders);
      CalmWith(r', Leave(s.receivers, t), s.senders, r.carried.Keys, s.entry, free);
    } else {
      SenderLeaves(s.receivers, s.senders, r.carried.Keys, {}, s.entry, free, t);
      SidesDoNotMatter(s, s.receivers, Leave(s.senders, t));
      CalmWith(r', s.receivers, Leave(s.senders, t), r.carried.Keys, s.entry, free);
    }
  }

  lemma ResetKeeps(r: Run)
    requires Inv(r)
    ensures Inv(Run(Reset(r.s), r.carried, [], []))
  {
    var s, r' := r.s, Run(Reset(r.s), r.carried, [], []);
    assert Contents(Reset(s)) == [];
    AllDismissed(s.receivers, s.senders, r.carried.Keys, {}, s.entry, Size(s) - s.entry, 0, Size(s));
    CalmWith(r', Dismiss(s.receivers), Dismiss(s.senders), r.carried.Keys, 0, Size(s));
  }

  /** Every step keeps the ring, the FIFO order and the wake-ups. */
  lemma StepKeepsInv(flag: Flag, r: Run, op: Op)
    requires Inv(r) && Enabled(r, op)
    ensures Inv(Step(flag, r, op))
  {
    match op
    case EnterSend(ps, t, v, timeout) =>
      SendKeepsFifo(flag, ps, r, t, v, timeout);
      SendKeepsWakeups(flag, ps, r, t, v, timeout);
    case RetrySend(ps, t, timeout) => RetrySendKeeps(flag, ps, r, t, timeout);
    case EnterRecv(ps, t, timeout) =>
      RecvKeepsFifo(flag, ps, r, t, timeout);
      RecvKeepsWakeups(flag, ps, r, t, timeout);
    case RetryRecv(ps, t, timeout) => RetryRecvKeeps(flag, ps, r, t, timeout);
    case DoExpire(t) => ExpireKeeps(flag, r, t);
    case DoReset => ResetKeeps(r);
  }

  function Init(pool: seq<nat>): Run {
    Run(State(pool, 0, 0, 0, Side([], {}), Side([], {})), map[], [], [])
  }

  ghost predicate IsRun(flag: Flag, trace: seq<Run>, ops: seq<Op>) {
    && |trace| == |ops| + 1 && trace[0] == Init(trace[0].s.pool) && Size(trace[0].s) < UINT16
    && forall i :: 0 <= i < |ops| ==> Enabled(trace[i], ops[i]) && trace[i + 1] == Step(flag, trace[i], ops[i])
  }

  /**
   * Over every run, with barging, timeouts and resets: the ring is a bounded FIFO,
   * and whenever a receiver (sender) sleeps, the queued words (free slots) are no
   * more than the woken receivers (senders) still to re-check.
   */
  lemma {:induction false} RunKeepsInv(flag: Flag, trace: seq<Run>, ops: seq<Op>, k: nat)
    requires IsRun(flag, trace, ops) && k < |trace|
    ensures Inv(trace[k])
  {
    if k > 0 {
      RunKeepsInv(flag, trace, ops, k - 1);
      StepKeepsInv(flag, trace[k - 1], ops[k - 1]);
    } else {
      assert Contents(trace[0].s) == [];
    }
  }

  // ----- what a call answers

  /** A word is accepted exactly when a slot is free; otherwise the sender is refused or sleeps, by its timeout. */
  lemma SendLaw(flag: Flag, ps: Priorities, s: State, t: Thread, v: nat, timeout: int)
    requires RingInv(s)
    ensures var (r, status) := Send(flag, ps, s, t, v, timeout);
            && (status == Ok <==> s.entry < Size(s))
            && (status == Full <==> s.entry == Size(s) && timeout == 0)
            && (status == Blocked <==> s.entry == Size(s) && timeout != 0)
            && (status == Ok ==> RingInv(r) && Contents(r) == Contents(s) + [v] && r.senders == s.senders
                                 && Woken(s.receivers, r.receivers))
            && (status == Full ==> r == s)
            && (status == Blocked ==>
                  && r == s.(senders := r.senders) && r.senders.woken == s.senders.woken
                  && Joins(s.senders.list, t, r.senders.list))
  {
    if s.entry < Size(s) { SendAppends(flag, ps, s, t, v, timeout); }
    WakeLaw(s.receivers);
    SuspendJoins(ps, flag, s.senders.list, t);
  }

  /** The oldest word is taken exactly when there is one; the receiver times out or sleeps exactly when there is none. */
  lemma RecvLaw(flag: Flag, ps: Priorities, s: State, t: Thread, timeout: int)
    requires RingInv(s)
    ensures var (r, status, v) := Recv(flag, ps, s, t, timeout);
            && (status == Ok <==> s.entry > 0)
            && (status == TimedOut <==> s.entry == 0 && timeout == 0)
            && (status == Blocked <==> s.entry == 0 && timeout != 0)
            && (status == Ok ==> RingInv(r) && Contents(s) == [v] + Contents(r) && r.receivers == s.receivers
                                 && Woken(s.senders, r.senders))
            && (status == TimedOut ==> r == s)
            && (status == Blocked ==>
                  && r == s.(receivers := r.receivers) && r.receivers.woken == s.receivers.woken
                  && Joins(s.receivers.list, t, r.receivers.list))
  {
    if s.entry > 0 { RecvTakesFirst(flag, ps, s, t, timeout); }
    WakeLaw(s.senders);
    SuspendJoins(ps, flag, s.receivers.list, t);
  }

  /** RESET leaves no word and nobody asleep. */
  lemma ResetLaw(s: State)
    requires RingInv(s)
    ensures var r := Reset(s);
            RingInv(r) && Contents(r) == [] && r.receivers.list == [] && r.senders.list == [] && r.pool == s.pool
  {
  }

  // ----- the object

  class MailboxObject {
    const flag: Flag
    const pool: array<nat>
    const receivers: WaitQueue
    const senders: WaitQueue
    var entry: nat
    var inOff: nat
    var outOff: nat
    ghost var woken: set<Thread>
    ghost var wokenSenders: set<Thread>

    ghost function View(): State
      reads this, pool, receivers, senders
    {
      State(pool[..], entry, inOff, outOff, Side(receivers.Waiting(), woken), Side(senders.Waiting(), wokenSenders))
    }

    ghost predicate Valid()
      reads this, pool, receivers, senders, receivers.head, senders.head, receivers.q, senders.q
    {
      Beside(receivers, senders) && RingInv(View())
    }

    /** `rt_mb_init` */
    constructor (flag: Flag, pool: array<nat>, threads: seq<Ring.Node>)
      requires Table(threads) && pool.Length < UINT16
      ensures Valid() && this.flag == flag && this.pool == pool && View() == Init(pool[..]).s
      ensures receivers.threads == threads
    {
      this.flag, this.pool := flag, pool;
      entry, inOff, outOff, woken, wokenSenders := 0, 0, 0, {}, {};
      receivers := new WaitQueue(threads);
      senders := new WaitQueue(threads);
    }

    /** `if (!rt_list_isempty(...)) rt_ipc_list_resume(...)` for the receivers. */
    method WakeReceiver()
      requires Beside(receivers, senders)
      modifies this`woken, receivers`q, receivers.head`next, receivers.head`prev, receivers.q`next, receivers.q`prev
      ensures Beside(receivers, senders) && senders.Waiting() == old(senders.Waiting())
      ensures Side(receivers.Waiting(), woken) == WakeOne(old(Side(receivers.Waiting(), woken)))
    {
      var empty := receivers.IsEmpty();
      if !empty {
        var t := ResumeBeside(receivers, senders);
        woken := woken + {t};
      }
    }

    /** and for the senders. */
    method WakeSender()
      requires Beside(receivers, senders)
      modifies this`wokenSenders, senders`q, senders.head`next, senders.head`prev, senders.q`next, senders.q`prev
      ensures Beside(receivers, senders) && receivers.Waiting() == old(receivers.Waiting())
      ensures Side(senders.Waiting(), wokenSenders) == WakeOne(old(Side(senders.Waiting(), wokenSenders)))
    {
      var empty := senders.IsEmpty();
      if !empty {
        var t := ResumeBeside(senders, receivers);
        wokenSenders := wokenSenders + {t};
      }
    }

    /** A word goes into the ring. */
    method Deposit(v: nat)
      requires RingInv(View()) && entry < pool.Length
      modifies this`entry, this`inOff, pool
      ensures pool[..] == old(pool[..])[old(inOff) := v] && inOff == Next(old(inOff), pool.Length)
      ensures entry == Inc16(old(entry))
    {
      pool[inOff] := v;
      inOff := inOff + 1;
      if inOff >= pool.Length { inOff := 0; }
      entry := Inc16(entry);
    }

    /** The critical section of `rt_mb_send_wait`, from the loop test on. */
    method SendSection(thread: Thread, v: nat, timeout: int) returns (status: Status)
      requires Valid() && thread < |senders.threads| && thread !in receivers.Waiting() && thread !in senders.Waiting()
      modifies this`entry, this`inOff, this`woken, pool
      modifies senders`q, senders.head`next, senders.head`prev, senders.q`next, senders.q`prev
      modifies senders.NodeOf(thread)`next, senders.NodeOf(thread)`prev
      modifies receivers`q, receivers.head`next, receivers.head`prev, receivers.q`next, receivers.q`prev
      ensures Valid() && (View(), status) == Send(flag, old(senders.Urgency()), old(View()), thread, v, timeout)
    {
      ghost var was, ps := View(), senders.Urgency();
      if entry == pool.Length {
        if timeout == 0 { return Full; }
        SidesDoNotMatter(was, was.receivers, Sleep(ps, flag, was.senders, thread));
        SuspendBeside(senders, receivers, thread, flag);
        return Blocked;
      }
      SendAppends(flag, ps, was, thread, v, timeout);
      Deposit(v);
      WakeReceiver();
      status := Ok;
    }

    /** A word comes out of the ring. */
    method Withdraw() returns (v: nat)
      requires RingInv(View()) && entry > 0
      modifies this`entry, this`outOff
      ensures v == pool[old(outOff)] && outOff == Next(old(outOff), pool.Length) && entry == Dec16(old(entry))
    {
      v := pool[outOff];
      outOff := outOff + 1;
      if outOff >= pool.Length { outOff := 0; }
      entry := Dec16(entry);
    }

    /** The critical section of `rt_mb_recv`, from the loop test on. */
    method RecvSection(thread: Thread, timeout: int) returns (status: Status, v: nat)
      requires Valid() && thread < |senders.threads| && thread !in receivers.Waiting() && thread !in senders.Waiting()
      modifies this`entry, this`outOff, this`wokenSenders
      modifies receivers`q, receivers.head`next, receivers.head`prev, receivers.q`next, receivers.q`prev
      modifies receivers.NodeOf(thread)`next, receivers.NodeOf(thread)`prev
      modifies senders`q, senders.head`next, senders.head`prev, senders.q`next, senders.q`prev
      ensures Valid() && (View(), status, v) == Recv(flag, old(receivers.Urgency()), old(View()), thread, timeout)
    {
      ghost var was, ps := View(), receivers.Urgency();
      if entry == 0 {
        if timeout == 0 { return TimedOut, 0; }
        SidesDoNotMatter(was, Sleep(ps, flag, was.receivers, thread), was.senders);
        SuspendBeside(receivers, senders, thread, flag);
        return Blocked, 0;
      }
      RecvTakesFirst(flag, ps, was, thread, timeout);
      v := Withdraw();
      WakeSender();
      status := Ok;
    }

    /** `rt_mb_control` with RESET: everyone returns with an error, receivers first. */
    method ResetSection() returns (dismissed: seq<Thread>)
      requires Valid()
      modifies this`entry, this`inOff, this`outOff
      modifies receivers`q, receivers.head`next, receivers.head`prev, receivers.q`next, receivers.q`prev
      modifies senders`q, senders.head`next, senders.head`prev, senders.q`next, senders.q`prev
      ensures Valid() && View() == Reset(old(View())) && Contents(View()) == []
      ensures dismissed == old(receivers.Waiting()) + old(senders.Waiting())
    {
      var first := ResumeAllBeside(receivers, senders);
      var second := ResumeAllBeside(senders, receivers);
      dismissed := first + second;
      entry, inOff, outOff := 0, 0, 0;
    }
  }
}
