/** Event flags: `rt_event_send`, `rt_event_recv` and RESET. */
module Event {
  import opened Kernel
  import opened Common
  import opened WaitList
  import opened ThreadList
  import Ring

  /** A 32-bit word as the set of its one-bits: `&` is `*`, `|` is `+` and `& ~` is `-`. */
  type Bits = set<nat>

  /** `event_info`: the AND, OR and CLEAR bits of the receive option. */
  datatype Option8 = Option8(all: bool, any: bool, clear: bool)

  /** A thread's `event_set` and `event_info`. */
  datatype Want = Want(bits: Bits, option: Option8)

  datatype State = State(flags: Bits, waiting: seq<Thread>, info: map<Thread, Want>)

  /** The fields of a thread that never waited satisfy nothing. */
  function WantOf(info: map<Thread, Want>, t: Thread): Want {
    if t in info then info[t] else Want({}, Option8(false, false, false))
  }

  // ----- the immediate-receive rule of `rt_event_recv`

  predicate Satisfied(flags: Bits, w: Want) {
    if w.option.all then flags * w.bits == w.bits
    else w.option.any && flags * w.bits != {}
  }

  function Received(flags: Bits, w: Want): Bits { flags * w.bits }

  function Remains(flags: Bits, w: Want): Bits {
    if w.option.clear then flags - w.bits else flags
  }

  // ----- `rt_event_send`

  /** The test the send loop makes for a waiter. */
  predicate Hit(flags: Bits, w: Want) {
    if w.option.all then w.bits * flags == w.bits else w.option.any && w.bits * flags != {}
  }

  /** What it does for one it resumes: narrow `event_set` (for OR), then clear those bits (for CLEAR). */
  function SendStep(flags: Bits, w: Want): (Want, Bits) {
    var got := if w.option.all then w.bits else w.bits * flags;
    (w.(bits := got), if w.option.clear then flags - got else flags)
  }

  /** The walk over the wait list. */
  function Offer(flags: Bits, q: seq<Thread>, info: map<Thread, Want>): State {
    if q == [] then State(flags, [], info)
    else
      var w := WantOf(info, q[0]);
      if Hit(flags, w) then
        var (w', flags') := SendStep(flags, w);
        Offer(flags', q[1..], info[q[0] := w'])
      else Prefixed([q[0]], Offer(flags, q[1..], info))
  }

  /** `kept` waiters stand before those of `r`. */
  function Prefixed(kept: seq<Thread>, r: State): State {
    r.(waiting := kept + r.waiting)
  }

  function Send(s: State, bits: Bits): (State, Status) {
    if bits == {} then (s, Refused) else (Offer(s.flags + bits, s.waiting, s.info), Ok)
  }

  // ----- `rt_event_recv`

  /** The critical section; the received bits are meaningful when the status is `Ok`. */
  function Recv(flag: Flag, ps: Priorities, s: State, t: Thread, w: Want, timeout: int): (State, Status, Bits) {
    if w.bits == {} then (s, Refused, {})
    else if Satisfied(s.flags, w) then (s.(flags := Remains(s.flags, w)), Ok, Received(s.flags, w))
    else if timeout == 0 then (s, TimedOut, {})
    else (s.(waiting := Suspend(ps, flag, s.waiting, t), info := s.info[t := w]), Blocked, {})
  }

  function Expire(s: State, t: Thread): State { s.(waiting := Without(s.waiting, t)) }

  function Reset(s: State): State { s.(flags := {}, waiting := []) }

  // ----- the code's own bookkeeping for a waiter is the immediate-receive rule

  /** The two tests agree, and clearing the narrowed bits leaves the same set as clearing all the wanted ones. */
  lemma SendStepIsReceive(flags: Bits, w: Want)
    ensures Hit(flags, w) <==> Satisfied(flags, w)
    ensures Hit(flags, w) ==> SendStep(flags, w) == (w.(bits := Received(flags, w)), Remains(flags, w))
  {
    assert w.bits * flags == flags * w.bits;
    assert flags - w.bits * flags == flags - w.bits;
  }

  /** The reference: every waiter in turn makes the non-blocking `rt_event_recv` call. */
  function OfferByRecv(flag: Flag, ps: Priorities, flags: Bits, q: seq<Thread>, info: map<Thread, Want>): State {
    if q == [] then State(flags, [], info)
    else
      var (s, status, bits) := Recv(flag, ps, State(flags, [], info), q[0], WantOf(info, q[0]), 0);
      if status == Ok then
        OfferByRecv(flag, ps, s.flags, q[1..], info[q[0] := WantOf(info, q[0]).(bits := bits)])
      else Prefixed([q[0]], OfferByRecv(flag, ps, flags, q[1..], info))
  }

  /** `rt_event_send` is OR-ing in the bits and then letting each waiter receive, in queue order. */
  lemma {:induction false} SendIsReceiving(flag: Flag, ps: Priorities, flags: Bits, q: seq<Thread>, info: map<Thread, Want>)
    requires Distinct(q) && Asked(q, info)
    ensures Offer(flags, q, info) == OfferByRecv(flag, ps, flags, q, info)
    decreases |q|
  {
    if q != [] {
      var t, w := q[0], WantOf(info, q[0]);
      assert forall x :: x in q[1..] ==> x in q && x != t;
      SendStepIsReceive(flags, w);
      if Satisfied(flags, w) {
        SendIsReceiving(flag, ps, Remains(flags, w), q[1..], info[t := w.(bits := Received(flags, w))]);
      } else {
        SendIsReceiving(flag, ps, flags, q[1..], info);
      }
    }
  }

  // ----- nobody sleeps on a satisfied condition

  ghost predicate Quiet(flags: Bits, q: seq<Thread>, info: map<Thread, Want>) {
    forall t :: t in q ==> !Satisfied(flags, WantOf(info, t))
  }

  /** Both kinds of condition are monotone in the set. */
  lemma SatisfiedMonotone(smaller: Bits, flags: Bits, w: Want)
    requires smaller <= flags && Satisfied(smaller, w)
    ensures Satisfied(flags, w)
  {
    if w.option.all {
      assert forall b :: b in w.bits ==> b in smaller * w.bits;
      assert flags * w.bits == w.bits;
    } else {
      var b :| b in smaller * w.bits;
      assert b in flags * w.bits;
    }
  }

  /** After offering, the set has only shrunk, and no waiter left over is satisfied by it. */
  lemma {:induction false} OfferQuiet(flags: Bits, q: seq<Thread>, info: map<Thread, Want>)
    requires Distinct(q)
    ensures var r := Offer(flags, q, info);
            && r.flags <= flags && Distinct(r.waiting) && Quiet(r.flags, r.waiting, r.info)
            && (forall t :: t in r.waiting ==> t in q)
            && (forall t :: t !in q || t in r.waiting ==> WantOf(r.info, t) == WantOf(info, t))
    decreases |q|
  {
    if q != [] {
      var t, w := q[0], WantOf(info, q[0]);
      assert forall x :: x in q[1..] ==> x in q && x != t;
      SendStepIsReceive(flags, w);
      if Satisfied(flags, w) {
        var info' := info[t := w.(bits := Received(flags, w))];
        OfferQuiet(Remains(flags, w), q[1..], info');
      } else {
        OfferQuiet(flags, q[1..], info);
        var r := Offer(flags, q[1..], info);
        assert t !in q[1..];
        if Satisfied(r.flags, w) { SatisfiedMonotone(r.flags, flags, w); }
      }
    }
  }

  // ----- runs

  datatype Op =
    | DoSend(bits: Bits)
    | DoRecv(ps: Priorities, t: Thread, want: Want, timeout: int)
    | DoExpire(t: Thread)
    | DoReset

  predicate Enabled(s: State, op: Op) {
    match op
    case DoSend(_) => true
    case DoRecv(_, t, w, _) => t !in s.waiting && (w.option.all || w.option.any)
    case DoExpire(t) => t in s.waiting
    case DoReset => true
  }

  /** Whoever waits asked for something (so its fields have been filled in). */
  ghost predicate Asked(q: seq<Thread>, info: map<Thread, Want>) {
    forall t :: t in q ==> WantOf(info, t).bits != {}
  }

  ghost predicate Inv(s: State) {
    Distinct(s.waiting) && Quiet(s.flags, s.waiting, s.info) && Asked(s.waiting, s.info)
  }

  function Step(flag: Flag, s: State, op: Op): State {
    match op
    case DoSend(bits) => Send(s, bits).0
    case DoRecv(ps, t, w, timeout) => Recv(flag, ps, s, t, w, timeout).0
    case DoExpire(t) => Expire(s, t)
    case DoReset => Reset(s)
  }

  lemma RecvKeepsInv(flag: Flag, ps: Priorities, s: State, t: Thread, w: Want, timeout: int)
    requires Inv(s) && t !in s.waiting
    ensures Inv(Recv(flag, ps, s, t, w, timeout).0)
  {
    if w.bits == {} {
    } else if Satisfied(s.flags, w) {
      forall x | x in s.waiting ensures !Satisfied(Remains(s.flags, w), WantOf(s.info, x)) {
        if Satisfied(Remains(s.flags, w), WantOf(s.info, x)) {
          SatisfiedMonotone(Remains(s.flags, w), s.flags, WantOf(s.info, x));
        }
      }
    } else {
      SuspendMembers(ps, flag, s.waiting, t);
    }
  }

  lemma StepKeepsInv(flag: Flag, s: State, op: Op)
    requires Inv(s) && Enabled(s, op)
    ensures Inv(Step(flag, s, op))
  {
    match op
    case DoSend(bits) => OfferQuiet(s.flags + bits, s.waiting, s.info);
    case DoRecv(ps, t, w, timeout) => RecvKeepsInv(flag, ps, s, t, w, timeout);
    case DoExpire(t) => WithoutMembers(s.waiting, t);
    case DoReset =>
  }

  ghost predicate IsRun(flag: Flag, trace: seq<State>, ops: seq<Op>) {
    && |trace| == |ops| + 1 && trace[0] == State({}, [], map[])
    && forall i :: 0 <= i < |ops| ==>
         Enabled(trace[i], ops[i]) && trace[i + 1] == Step(flag, trace[i], ops[i])
  }

  /** In every reachable state no suspended thread's condition is met by the current set. */
  lemma {:induction false} RunQuiet(flag: Flag, trace: seq<State>, ops: seq<Op>, k: nat)
    requires IsRun(flag, trace, ops) && k < |trace|
    ensures Inv(trace[k])
  {
    if k > 0 {
      RunQuiet(flag, trace, ops, k - 1);
      StepKeepsInv(flag, trace[k - 1], ops[k - 1]);
    }
  }

  // ----- what a call answers, bit by bit

  /** All wanted bits are set, or (for OR) one of them is. */
  ghost predicate Met(now: Bits, w: Want) {
    if w.option.all then forall b :: b in w.bits ==> b in now
    else w.option.any && exists b :: b in w.bits && b in now
  }

  lemma MetIsSatisfied(now: Bits, w: Want)
    ensures Met(now, w) <==> Satisfied(now, w)
  {
    if w.option.all {
      assert (forall b :: b in w.bits ==> b in now) ==> now * w.bits == w.bits;
      assert now * w.bits == w.bits ==> forall b :: b in w.bits ==> b in now * w.bits;
    } else if now * w.bits != {} {
      var b :| b in now * w.bits;
      assert b in w.bits && b in now;
    } else {
      assert forall b :: b in w.bits ==> b !in now by {
        assert forall b :: b in w.bits && b in now ==> b in now * w.bits;
      }
    }
  }

  /**
   * A receive is refused if it wants nothing. If its condition is met it gets, whatever its timeout, the
   * bits that are set and wanted, and exactly those are cleared if it asked for that; otherwise it times
   * out at once or sleeps, by its timeout, and nothing is received or cleared.
   */
  lemma RecvLaw(flag: Flag, ps: Priorities, s: State, t: Thread, w: Want, timeout: int)
    ensures var (r, status, got) := Recv(flag, ps, s, t, w, timeout);
            && (status == Refused <==> w.bits == {})
            && (status == Ok <==> w.bits != {} && Met(s.flags, w))
            && (status == TimedOut <==> w.bits != {} && !Met(s.flags, w) && timeout == 0)
            && (status == Blocked <==> w.bits != {} && !Met(s.flags, w) && timeout != 0)
            && (status == Ok ==>
                  && (forall b :: b in got <==> b in s.flags && b in w.bits)
                  && (forall b :: b in r.flags <==> b in s.flags && !(w.option.clear && b in w.bits))
                  && r == s.(flags := r.flags))
            && (status == Refused || status == TimedOut ==> r == s)
            && (status == Blocked ==>
                  r == State(s.flags, r.waiting, s.info[t := w]) && Joins(s.waiting, t, r.waiting))
  {
    MetIsSatisfied(s.flags, w);
    SuspendJoins(ps, flag, s.waiting, t);
  }

  /** A send is refused if it sends nothing; otherwise every bit that is set afterwards was set before or was sent. */
  lemma SendLaw(s: State, bits: Bits)
    requires Inv(s)
    ensures var (r, status) := Send(s, bits);
            && (status == Refused <==> bits == {}) && (status == Ok <==> bits != {})
            && (bits == {} ==> r == s)
            && (forall b :: b in r.flags ==> b in s.flags || b in bits)
            && (s.waiting == [] && bits != {} ==> forall b :: b in r.flags <==> b in s.flags || b in bits)
            && (forall t :: t in r.waiting ==> t in s.waiting && !Met(r.flags, WantOf(s.info, t)))
  {
    var r := Send(s, bits).0;
    OfferQuiet(s.flags + bits, s.waiting, s.info);
    forall t | t in r.waiting ensures t in s.waiting && !Met(r.flags, WantOf(s.info, t)) {
      MetIsSatisfied(r.flags, WantOf(r.info, t));
      assert bits == {} ==> !Satisfied(s.flags, WantOf(s.info, t));
    }
  }

  /** A waiter whose condition the sent bits meet, first in the list, is resumed with what is set and wanted. */
  lemma FirstIsServed(s: State, bits: Bits)
    requires Inv(s) && s.waiting != [] && bits != {} && Met(s.flags + bits, WantOf(s.info, s.waiting[0]))
    ensures var r, t := Send(s, bits).0, s.waiting[0];
            && t !in r.waiting && t in r.info
            && forall b :: b in r.info[t].bits <==> (b in s.flags || b in bits) && b in WantOf(s.info, t).bits
  {
    var flags, t, w := s.flags + bits, s.waiting[0], WantOf(s.info, s.waiting[0]);
    MetIsSatisfied(flags, w);
    SendStepIsReceive(flags, w);
    var info' := s.info[t := SendStep(flags, w).0];
    assert t !in s.waiting[1..];
    OfferQuiet(SendStep(flags, w).1, s.waiting[1..], info');
    OfferKeepsInfo(SendStep(flags, w).1, s.waiting[1..], info', t);
  }

  lemma {:induction false} OfferKeepsInfo(flags: Bits, q: seq<Thread>, info: map<Thread, Want>, t: Thread)
    requires t !in q && t in info
    ensures var r := Offer(flags, q, info); t in r.info && r.info[t] == info[t]
    decreases |q|
  {
    if q != [] {
      var w := WantOf(info, q[0]);
      if Hit(flags, w) {
        OfferKeepsInfo(SendStep(flags, w).1, q[1..], info[q[0] := SendStep(flags, w).0], t);
      } else {
        OfferKeepsInfo(flags, q[1..], info, t);
      }
    }
  }

  /** RESET leaves no bit set and nobody asleep. */
  lemma ResetLaw(s: State)
    ensures (forall b :: b !in Reset(s).flags) && Reset(s).waiting == []
  {
  }

  // ----- the object

  class EventObject {
    const flag: Flag
    const list: WaitQueue
    var flags: Bits
    var info: map<Thread, Want>

    ghost function View(): State
      reads this, list
    {
      State(flags, list.Waiting(), info)
    }

    /** The list is well linked, and nobody in it is satisfied. */
    ghost predicate Valid()
      reads this, list, list.head, list.q
    {
      list.Valid() && Inv(View())
    }

    /** `rt_event_init` */
    constructor (flag: Flag, threads: seq<Ring.Node>)
      requires Table(threads)
      ensures Valid() && this.flag == flag && list.threads == threads && View() == State({}, [], map[])
    {
      this.flag, flags, info := flag, {}, map[];
      list := new WaitQueue(threads);
    }

    /** One thread of the walk: resumed if its condition is met. */
    method Visit(n: Ring.Node, ghost k: nat) returns (resumed: bool)
      requires list.Valid() && k < |list.q| && n == list.q[k] && n.id in info
      modifies this`flags, this`info, list`q, list.head`next, list.head`prev, list.threads`next, list.threads`prev
      ensures list.Valid() && resumed == Hit(old(flags), old(info)[n.id])
      ensures !resumed ==> flags == old(flags) && info == old(info) && list.q == old(list.q)
      ensures resumed ==>
                var (w, fs) := SendStep(old(flags), old(info)[n.id]);
                flags == fs && info == old(info)[n.id := w] && list.q == RemoveAt(old(list.q), k)
    {
      var w := info[n.id];
      resumed := if w.option.all then w.bits * flags == w.bits else w.option.any && w.bits * flags != {};
      if resumed {
        if !w.option.all { info := info[n.id := w.(bits := w.bits * flags)]; }
        assert w.option.all ==> info[n.id := w] == info;
        if w.option.clear { flags := flags - info[n.id].bits; }
        list.Members();
        list.Unlink(n, k);
      }
    }

    /** `rt_event_send`: one walk over the list, unlinking the satisfied waiters as it goes. */
    method SendSection(bits: Bits) returns (status: Status)
      requires Valid()
      modifies this`flags, this`info, list`q, list.head`next, list.head`prev, list.threads`next, list.threads`prev
      ensures Valid() && (View(), status) == Send(old(View()), bits)
    {
      StepKeepsInv(flag, View(), DoSend(bits));
      if bits == {} { return Refused; }
      flags := flags + bits;
      Walk();
      return Ok;
    }

    /** How far the walk is: `kept` waiters passed, `rest` to come. */
    ghost predicate Walking(target: State, kept: seq<Thread>, rest: seq<Thread>)
      reads this, list, list.head, list.q
    {
      && list.Valid() && list.Waiting() == kept + rest && (forall t :: t in rest ==> t in info)
      && target == Prefixed(kept, Offer(flags, rest, info))
    }

    method Walk()
      requires list.Valid() && forall t :: t in list.Waiting() ==> t in info
      modifies this`flags, this`info, list`q, list.head`next, list.head`prev, list.threads`next, list.threads`prev
      ensures list.Valid() && View() == old(Offer(flags, list.Waiting(), info))
    {
      ghost var target := Offer(flags, list.Waiting(), info);
      ghost var kept, rest: seq<Thread> := [], list.Waiting();
      assert [] + rest == rest && [] + target.waiting == target.waiting;
      var n := list.First();
      while n != list.head
        invariant Walking(target, kept, rest) && n == Ring.Seat(list.head, list.q, |kept|)
        decreases |rest|
      {
        n, kept, rest := Turn(n, target, kept, rest);
      }
      assert rest == [] && kept + [] == kept;
    }

    /** One turn: the next node is read before this one may be unlinked. */
    method Turn(n: Ring.Node, ghost target: State, ghost kept: seq<Thread>, ghost rest: seq<Thread>)
        returns (n': Ring.Node, ghost kept': seq<Thread>, ghost rest': seq<Thread>)
      requires Walking(target, kept, rest) && n != list.head && n == Ring.Seat(list.head, list.q, |kept|)
      modifies this`flags, this`info, list`q, list.head`next, list.head`prev, list.threads`next, list.threads`prev
      ensures Walking(target, kept', rest') && n' == Ring.Seat(list.head, list.q, |kept'|) && |rest'| < |rest|
    {
      ghost var k, t := |kept|, n.id;
      assert k < |list.q| && rest != [] && rest[0] == t;
      n' := list.After(n, k);
      WalkStep(target, kept, rest);
      ghost var was := list.q;
      var resumed := Visit(n, k);
      kept', rest' := if resumed then kept else kept + [t], rest[1..];
      if resumed { IdsRemove(was, k); }
    }

    lemma WalkStep(target: State, kept: seq<Thread>, rest: seq<Thread>)
      requires Walking(target, kept, rest) && rest != []
      ensures var t, w := rest[0], info[rest[0]];
              var (w', fs) := SendStep(flags, w);
              target == if Hit(flags, w) then Prefixed(kept, Offer(fs, rest[1..], info[t := w']))
                        else Prefixed(kept + [t], Offer(flags, rest[1..], info))
    {
      var t := rest[0];
      var r := Offer(flags, rest[1..], info);
      assert kept + ([t] + r.waiting) == kept + [t] + r.waiting;
    }

    /** The critical section of `rt_event_recv`. */
    method RecvSection(thread: Thread, w: Want, timeout: int) returns (status: Status, recved: Bits)
      requires Valid() && thread < |list.threads| && thread !in list.Waiting()
      modifies this`flags, this`info, list`q, list.head`next, list.head`prev, list.q`next, list.q`prev, list.NodeOf(thread)`next, list.NodeOf(thread)`prev
      ensures Valid()
      ensures (View(), status, recved) == Recv(flag, old(list.Urgency()), old(View()), thread, w, timeout)
    {
      RecvKeepsInv(flag, list.Urgency(), View(), thread, w, timeout);
      status, recved := Ok, {};
      if w.bits == {} { return Refused, {}; }
      var hit := if w.option.all then flags * w.bits == w.bits else w.option.any && flags * w.bits != {};
      if hit {
        recved := flags * w.bits;
        if w.option.clear { flags := flags - w.bits; }
      } else if timeout == 0 {
        status := TimedOut;
      } else {
        info := info[thread := w];
        list.Suspend(thread, flag);
        status := Blocked;
      }
    }

    /** `rt_event_control` with RESET. */
    method ResetSection() returns (woken: seq<Thread>)
      requires Valid()
      modifies this`flags, list`q, list.head`next, list.head`prev, list.q`next, list.q`prev
      ensures Valid() && View() == Reset(old(View())) && woken == old(list.Waiting())
    {
      StepKeepsInv(flag, View(), DoReset);
      woken := list.ResumeAll();
      flags := {};
    }

    /** `rt_thread_timeout` of a thread sleeping here. */
    method ExpireSection(thread: Thread)
      requires Valid() && thread in list.Waiting()
      modifies list`q, list.head`next, list.head`prev, list.q`next, list.q`prev
      ensures Valid() && View() == Expire(old(View()), thread)
    {
      StepKeepsInv(flag, View(), DoExpire(thread));
      list.Leave(thread);
    }
  }
}
