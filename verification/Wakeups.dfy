/**
 * One side of a blocking object: the threads asleep on it and the threads that
 * have been woken with RT_EOK but have not yet re-entered the critical section.
 */
module Wakeups {
  import opened Common
  import opened WaitList

  datatype Side = Side(list: seq<Thread>, woken: set<Thread>)

  /** Everyone who is asleep or on the way back. */
  function Members(s: Side): set<Thread> { (set t | t in s.list) + s.woken }

  function Sleep(ps: Priorities, flag: Flag, s: Side, t: Thread): Side {
    s.(list := Suspend(ps, flag, s.list, t))
  }

  /** `rt_list_insert_after(&suspend_thread, ...)`: the latest sleeper stands first. */
  function SleepFirst(s: Side, t: Thread): Side { s.(list := [t] + s.list) }

  /** `if (!rt_list_isempty(...)) rt_ipc_list_resume(...)` */
  function WakeOne(s: Side): Side {
    if s.list == [] then s else Side(s.list[1..], s.woken + {s.list[0]})
  }

  /** The first sleeper, if there is one, is on its way; the others sleep on in their order. */
  ghost predicate Woken(s: Side, r: Side) {
    if s.list == [] then r == s
    else exists t :: s.list == [t] + r.list && r.woken == s.woken + {t}
  }

  lemma WakeLaw(s: Side)
    ensures Woken(s, WakeOne(s))
  {
    if s.list != [] { assert s.list == [s.list[0]] + WakeOne(s).list; }
  }

  /** A woken thread re-enters. */
  function Reenter(s: Side, t: Thread): Side { s.(woken := s.woken - {t}) }

  /** A sleeping thread's timer expires. */
  function Leave(s: Side, t: Thread): Side { s.(list := Without(s.list, t)) }

  /** `rt_ipc_list_resume_all`: everyone returns with an error. */
  function Dismiss(s: Side): Side { s.(list := []) }

  ghost predicate Proper(s: Side) {
    Distinct(s.list) && forall t :: t in s.list ==> t !in s.woken
  }

  /** No lost wake-up: while someone sleeps, each available unit has a woken thread on its way to it. */
  ghost predicate NoneLost(s: Side, available: int) {
    s.list != [] ==> available <= |s.woken|
  }

  /** A unit became available and a sleeper, if any, was woken for it. */
  lemma WakeKeeps(s: Side, available: int)
    requires Proper(s) && NoneLost(s, available)
    ensures Proper(WakeOne(s)) && NoneLost(WakeOne(s), available + 1) && Members(WakeOne(s)) == Members(s)
  {
    if s.list != [] {
      var r := WakeOne(s);
      assert s.list[0] in s.list;
      assert forall t :: t in s.list <==> t == s.list[0] || t in s.list[1..];
      assert |r.woken| == |s.woken| + 1;
    }
  }

  /** A thread goes to sleep because nothing is available. */
  lemma SleepKeeps(ps: Priorities, flag: Flag, s: Side, t: Thread)
    requires Proper(s) && t !in Members(s)
    ensures var r := Sleep(ps, flag, s, t);
            Proper(r) && NoneLost(r, 0) && Members(r) == Members(s) + {t}
  {
    SuspendMembers(ps, flag, s.list, t);
  }

  lemma SleepFirstKeeps(s: Side, t: Thread)
    requires Proper(s) && t !in Members(s)
    ensures var r := SleepFirst(s, t);
            Proper(r) && NoneLost(r, 0) && Members(r) == Members(s) + {t}
  {
    assert forall x :: x in [t] + s.list <==> x == t || x in s.list;
  }

  /** A woken thread re-enters and takes a unit, or finds none. */
  lemma ReenterKeeps(s: Side, t: Thread, available: int)
    requires Proper(s) && t in s.woken && NoneLost(s, available)
    ensures var r := Reenter(s, t);
            Proper(r) && NoneLost(r, available - 1) && Members(r) == Members(s) - {t}
  {
    assert |s.woken - {t}| == |s.woken| - 1;
  }

  lemma LeaveKeeps(s: Side, t: Thread, available: int)
    requires Proper(s) && t in s.list && NoneLost(s, available)
    ensures var r := Leave(s, t);
            Proper(r) && NoneLost(r, available) && Members(r) == Members(s) - {t}
  {
    WithoutMembers(s.list, t);
  }

  // ----- an object with receivers and senders

  /** Everyone is in one place; a sender holds something to send, and the busy are in neither list. */
  ghost predicate Apart(receivers: Side, senders: Side, holders: set<Thread>, busy: set<Thread>) {
    && Proper(receivers) && Proper(senders) && Members(receivers) !! Members(senders)
    && Members(senders) <= holders && busy !! Members(receivers) && busy !! Members(senders)
  }

  /** and no wake-up is lost: receivers against what is queued, senders against what is free. */
  ghost predicate Settled(receivers: Side, senders: Side, holders: set<Thread>, busy: set<Thread>,
                          queued: int, free: int) {
    Apart(receivers, senders, holders, busy) && NoneLost(receivers, queued) && NoneLost(senders, free)
  }

  lemma SenderSleeps(flag: Flag, ps: Priorities, receivers: Side, senders: Side, holders: set<Thread>,
                     busy: set<Thread>, queued: int, t: Thread)
    requires Settled(receivers, senders, holders, busy, queued, 0)
    requires t !in Members(receivers) && t !in Members(senders) && t !in busy
    ensures Settled(receivers, Sleep(ps, flag, senders, t), holders + {t}, busy, queued, 0)
  {
    SleepKeeps(ps, flag, senders, t);
  }

  lemma ReceiverSleeps(flag: Flag, ps: Priorities, receivers: Side, senders: Side, holders: set<Thread>,
                       busy: set<Thread>, free: int, t: Thread)
    requires Settled(receivers, senders, holders, busy, 0, free)
    requires t !in Members(receivers) && t !in Members(senders) && t !in busy
    ensures Settled(Sleep(ps, flag, receivers, t), senders, holders, busy, 0, free)
  {
    SleepKeeps(ps, flag, receivers, t);
  }

  /** One more is queued, and a receiver is woken for it. */
  lemma ReceiverWoken(receivers: Side, senders: Side, holders: set<Thread>, busy: set<Thread>, queued: int, free: int)
    requires Settled(receivers, senders, holders, busy, queued, free)
    ensures Settled(WakeOne(receivers), senders, holders, busy, queued + 1, free)
  {
    WakeKeeps(receivers, queued);
  }

  /** One more is free, and a sender is woken for it. */
  lemma SenderWoken(receivers: Side, senders: Side, holders: set<Thread>, busy: set<Thread>, queued: int, free: int)
    requires Settled(receivers, senders, holders, busy, queued, free)
    ensures Settled(receivers, WakeOne(senders), holders, busy, queued, free + 1)
  {
    WakeKeeps(senders, free);
  }

  /** A timer takes a sleeper away. */
  lemma ReceiverLeaves(receivers: Side, senders: Side, holders: set<Thread>, busy: set<Thread>,
                       queued: int, free: int, t: Thread)
    requires Settled(receivers, senders, holders, busy, queued, free) && t in receivers.list
    ensures Settled(Leave(receivers, t), senders, holders, busy, queued, free)
  {
    LeaveKeeps(receivers, t, queued);
  }

  lemma SenderLeaves(receivers: Side, senders: Side, holders: set<Thread>, busy: set<Thread>,
                     queued: int, free: int, t: Thread)
    requires Settled(receivers, senders, holders, busy, queued, free) && t in senders.list
    ensures Settled(receivers, Leave(senders, t), holders, busy, queued, free)
  {
    LeaveKeeps(senders, t, free);
  }

  /** RESET sends everyone away, so nobody can be waiting in vain. */
  lemma AllDismissed(receivers: Side, senders: Side, holders: set<Thread>, busy: set<Thread>,
                     queued: int, free: int, queued': int, free': int)
    requires Settled(receivers, senders, holders, busy, queued, free)
    ensures Settled(Dismiss(receivers), Dismiss(senders), holders, busy, queued', free')
  {
  }

  /** Who holds something after `t` has been given something to hold. */
  lemma KeysWith<M>(carried: map<Thread, M>, t: Thread, m: M)
    ensures carried[t := m].Keys == carried.Keys + {t}
  {
  }
}
