/**
 * The message queue: `rt_mq_send_wait`, `rt_mq_urgent`, `rt_mq_recv` and RESET.
 * Messages are copied outside the critical sections, so a node may be in flight:
 * taken from the free list and not yet linked, or unlinked and not yet returned.
 */
module MessageQueue {
  import opened Kernel
  import opened Common
  import opened WaitList
  import opened Wakeups

  type Message = seq<nat>

  const NULL := -1

  /** A sender's node between its two critical sections. */
  datatype Filling = Filling(node: nat, msg: Message, urgent: bool, copied: bool)

  /** The pool (link field and payload of every node) and the object's fields. */
  datatype State = State(next: seq<int>, data: seq<Message>, head: int, tail: int, free: int, entry: nat,
                         receivers: Side, senders: Side)

  // ----- chains

  function After(ns: seq<nat>, i: nat): int { if i < |ns| then ns[i] else NULL }

  /** The nodes `ns` are linked from `start` and end in NULL, and none comes twice. */
  ghost predicate Chain(next: seq<int>, start: int, ns: seq<nat>) {
    && start == After(ns, 0) && Distinct(ns)
    && (forall i :: 0 <= i < |ns| ==> ns[i] < |next| && next[ns[i]] == After(ns, i + 1))
  }

  function Last(ns: seq<nat>): int { if ns == [] then NULL else ns[|ns| - 1] }

  lemma ChainFrame(next: seq<int>, start: int, ns: seq<nat>, k: nat, v: int)
    requires Chain(next, start, ns) && k < |next| && k !in ns
    ensures Chain(next[k := v], start, ns)
  {
  }

  lemma ChainPush(next: seq<int>, start: int, ns: seq<nat>, k: nat)
    requires Chain(next, start, ns) && k < |next| && k !in ns
    ensures Chain(next[k := start], k, [k] + ns)
  {
    var r := [k] + ns;
    assert forall i :: 0 <= i <= |ns| ==> After(r, i + 1) == After(ns, i);
    assert forall i :: 0 < i < |r| ==> r[i] == ns[i - 1];
  }

  lemma ChainAppend(next: seq<int>, start: int, ns: seq<nat>, k: nat)
    requires Chain(next, start, ns) && k < |next| && k !in ns && next[k] == NULL
    ensures Chain(if ns == [] then next else next[ns[|ns| - 1] := k], if ns == [] then k else start, ns + [k])
  {
    var r := ns + [k];
    assert forall i :: 0 <= i < |ns| ==> After(r, i) == ns[i];
    assert After(r, |ns|) == k && After(r, |ns| + 1) == NULL;
  }

  lemma ChainPop(next: seq<int>, start: int, ns: seq<nat>)
    requires Chain(next, start, ns) && ns != []
    ensures 0 <= start < |next| && Chain(next, next[start], ns[1..]) && start !in ns[1..]
  {
    var r := ns[1..];
    assert next[ns[0]] == After(ns, 1);
    assert forall i :: 0 <= i <= |r| ==> After(r, i) == After(ns, i + 1);
    assert forall i :: 0 <= i < |r| ==> r[i] == ns[i + 1];
  }

  // ----- the critical sections

  /** `node->next`; in every reachable state it is only read and written inside the pool. */
  function Link(next: seq<int>, k: int): int { if 0 <= k < |next| then next[k] else NULL }

  function Store<T>(a: seq<T>, k: int, v: T): (r: seq<T>)
    ensures |r| == |a|
  {
    if 0 <= k < |a| then a[k := v] else a
  }

  /** Taking a node from the free list, or sleeping for one (`rt_mq_urgent` is the call with timeout 0). */
  function TakeNode(flag: Flag, ps: Priorities, s: State, t: Thread, timeout: int): (State, Status, int) {
    if s.free != NULL then (s.(free := Link(s.next, s.free)), Ok, s.free)
    else if timeout == 0 then (s, Full, NULL)
    else (s.(senders := Sleep(ps, flag, s.senders, t)), Blocked, NULL)
  }

  /** Linking a node at the tail and waking a receiver. */
  function LinkBack(s: State, node: nat): State {
    s.(next := if s.tail != NULL then Store(s.next, s.tail, node) else s.next,
       tail := node, head := if s.head == NULL then node else s.head,
       entry := Inc16(s.entry), receivers := WakeOne(s.receivers))
  }

  /** Linking a node at the head and waking a receiver. */
  function LinkFront(s: State, node: nat): State {
    s.(next := Store(s.next, node, s.head), head := node, tail := if s.tail == NULL then node else s.tail,
       entry := Inc16(s.entry), receivers := WakeOne(s.receivers))
  }

  /** Unlinking the first message, or sleeping for one. */
  function Unlink(flag: Flag, ps: Priorities, s: State, t: Thread, timeout: int): (State, Status, int) {
    if s.entry != 0 then
      (s.(head := Link(s.next, s.head), tail := if s.tail == s.head then NULL else s.tail, entry := Dec16(s.entry)),
       Ok, s.head)
    else if timeout == 0 then (s, TimedOut, NULL)
    else (s.(receivers := Sleep(ps, flag, s.receivers, t)), Blocked, NULL)
  }

  /** Returning a node to the free list and waking a sender. */
  function ReturnNode(s: State, node: nat): State {
    s.(next := Store(s.next, node, s.free), free := node, senders := WakeOne(s.senders))
  }

  /** The RESET loop: the queued nodes are pushed on the free list, first to last. */
  function Drain(next: seq<int>, free: int, ns: seq<nat>): (r: (seq<int>, int))
    ensures |r.0| == |next|
    decreases |ns|
  {
    if ns == [] then (next, free) else Drain(Store(next, ns[0], free), ns[0], ns[1..])
  }

  function Reversed(ns: seq<nat>): seq<nat> {
    if ns == [] then [] else Reversed(ns[1..]) + [ns[0]]
  }

  /** After RESET the free list is the queue backwards, then what was free before. */
  lemma {:induction false} DrainChain(next: seq<int>, free: int, ns: seq<nat>, fs: seq<nat>)
    requires Chain(next, free, fs) && Distinct(ns)
    requires forall i :: 0 <= i < |ns| ==> ns[i] < |next| && ns[i] !in fs
    ensures Chain(Drain(next, free, ns).0, Drain(next, free, ns).1, Reversed(ns) + fs)
    decreases |ns|
  {
    if ns == [] {
      assert Reversed(ns) + fs == fs;
    } else {
      ChainPush(next, free, fs, ns[0]);
      assert forall i :: 0 <= i < |ns| - 1 ==> ns[1..][i] == ns[i + 1];
      DrainChain(next[ns[0] := free], ns[0], ns[1..], [ns[0]] + fs);
      assert Reversed(ns[1..]) + ([ns[0]] + fs) == Reversed(ns) + fs;
    }
  }

  lemma {:induction false} ReversedMembers(ns: seq<nat>)
    ensures |Reversed(ns)| == |ns| && forall k :: k in Reversed(ns) <==> k in ns
  {
    if ns != [] {
      ReversedMembers(ns[1..]);
      assert forall k :: k in ns <==> k == ns[0] || k in ns[1..];
      assert forall k :: k in Reversed(ns) <==> k in Reversed(ns[1..]) || k == ns[0];
    }
  }

  /** RESET, the queue being `ns`. */
  function Reset(s: State, ns: seq<nat>): State {
    var (next, free) := Drain(s.next, s.free, ns);
    s.(next := next, free := free, head := NULL, tail := NULL, entry := 0,
       receivers := Dismiss(s.receivers), senders := Dismiss(s.senders))
  }

  // ----- what the sections do to the two lists

  /** The free list is `fs`, the queue is `qs`, and the object's fields describe them. */
  ghost predicate Lists(s: State, fs: seq<nat>, qs: seq<nat>) {
    && |s.next| == |s.data| < UINT16
    && Chain(s.next, s.free, fs) && Chain(s.next, s.head, qs)
    && s.tail == Last(qs) && s.entry == |qs|
    && (forall k :: k in fs ==> k !in qs)
  }

  ghost predicate Loose(s: State, fs: seq<nat>, qs: seq<nat>, k: nat) {
    k < |s.next| && k !in fs && k !in qs
  }

  lemma TakeKeeps(s: State, fs: seq<nat>, qs: seq<nat>)
    requires Lists(s, fs, qs) && fs != []
    ensures s.free == fs[0] < |s.next| && Lists(s.(free := Link(s.next, s.free)), fs[1..], qs)
  {
    ChainPop(s.next, s.free, fs);
  }

  lemma FillKeeps(s: State, fs: seq<nat>, qs: seq<nat>, k: nat, next: int, msg: Message)
    requires Lists(s, fs, qs) && Loose(s, fs, qs, k)
    ensures Lists(s.(next := s.next[k := next], data := s.data[k := msg]), fs, qs)
  {
    ChainFrame(s.next, s.free, fs, k, next);
    ChainFrame(s.next, s.head, qs, k, next);
  }

  /** A list without repetition of numbers below `n` has at most `n` elements. */
  lemma {:induction false} Pigeonhole(ns: seq<nat>, n: nat)
    requires Distinct(ns) && forall i :: 0 <= i < |ns| ==> ns[i] < n
    ensures |ns| <= n
    decreases n
  {
    if ns != [] {
      assert ns[0] < n;
      WithoutMembers(ns, n - 1);
      var r := Without(ns, n - 1);
      assert forall i :: 0 <= i < |r| ==> r[i] in r;
      Pigeonhole(r, n - 1);
    }
  }

  /** One more message fits the 16-bit count. */
  lemma EntryGrows(s: State, fs: seq<nat>, qs: seq<nat>, k: nat)
    requires Lists(s, fs, qs) && Loose(s, fs, qs, k)
    ensures Inc16(s.entry) == |qs| + 1
  {
    Pigeonhole(qs + [k], |s.next|);
  }

  lemma EntryShrinks(s: State, fs: seq<nat>, qs: seq<nat>)
    requires Lists(s, fs, qs) && qs != []
    ensures Dec16(s.entry) == |qs| - 1
  {
    Pigeonhole(qs, |s.next|);
  }

  lemma LinkBackKeeps(s: State, fs: seq<nat>, qs: seq<nat>, k: nat)
    requires Lists(s, fs, qs) && Loose(s, fs, qs, k) && s.next[k] == NULL
    ensures Lists(LinkBack(s, k), fs, qs + [k])
  {
    EntryGrows(s, fs, qs, k);
    ChainAppend(s.next, s.head, qs, k);
    if qs != [] {
      assert qs[|qs| - 1] in qs;
      ChainFrame(s.next, s.free, fs, qs[|qs| - 1], k);
    }
  }

  lemma LinkFrontKeeps(s: State, fs: seq<nat>, qs: seq<nat>, k: nat)
    requires Lists(s, fs, qs) && Loose(s, fs, qs, k)
    ensures Lists(LinkFront(s, k), fs, [k] + qs)
  {
    EntryGrows(s, fs, qs, k);
    ChainPush(s.next, s.head, qs, k);
    ChainFrame(s.next, s.free, fs, k, s.head);
  }

  lemma UnlinkKeeps(flag: Flag, ps: Priorities, s: State, fs: seq<nat>, qs: seq<nat>, t: Thread, timeout: int)
    requires Lists(s, fs, qs) && qs != []
    ensures var (r, status, node) := Unlink(flag, ps, s, t, timeout);
            status == Ok && node == qs[0] && Lists(r, fs, qs[1..])
  {
    ChainPop(s.next, s.head, qs);
    EntryShrinks(s, fs, qs);
    if |qs| > 1 { assert s.tail == qs[|qs| - 1] != qs[0]; }
  }

  lemma ReturnKeeps(s: State, fs: seq<nat>, qs: seq<nat>, k: nat)
    requires Lists(s, fs, qs) && Loose(s, fs, qs, k)
    ensures Lists(ReturnNode(s, k), [k] + fs, qs)
  {
    ChainPush(s.next, s.free, fs, k);
    ChainFrame(s.next, s.head, qs, k, s.free);
  }

  lemma ResetKeeps(s: State, fs: seq<nat>, qs: seq<nat>)
    requires Lists(s, fs, qs)
    ensures Lists(Reset(s, qs), Reversed(qs) + fs, [])
  {
    assert forall i :: 0 <= i < |qs| ==> qs[i] in qs;
    DrainChain(s.next, s.free, qs, fs);
  }

  // ----- runs

  /** Where a node is. */
  datatype Place = IsFree | IsQueued | InSend(t: Thread) | InRecv(t: Thread)

  /** A receiver's node, and the message it unlinked. */
  datatype Draining = Draining(node: nat, msg: Message)

  /**
   * The object with its in-flight nodes and, to say what they mean, the two lists,
   * the place of every node, and the bounded deque the queue stands for.
   */
  datatype Run = Run(s: State, fs: seq<nat>, qs: seq<nat>, places: seq<Place>,
                     filling: map<Thread, Filling>, draining: map<Thread, Draining>,
                     carried: map<Thread, Message>, deque: seq<Message>)

  /** Every node is in exactly one of the free list, the queue, and the hands of one thread. */
  ghost predicate Located(places: seq<Place>, fs: seq<nat>, qs: seq<nat>,
                          filling: map<Thread, Filling>, draining: map<Thread, Draining>) {
    && (forall k :: 0 <= k < |places| ==> (k in fs <==> places[k] == IsFree) && (k in qs <==> places[k] == IsQueued))
    && (forall t :: t in filling ==> filling[t].node < |places| && places[filling[t].node] == InSend(t))
    && (forall t :: t in draining ==> draining[t].node < |places| && places[draining[t].node] == InRecv(t))
    && (forall k :: 0 <= k < |places| && places[k].InSend? ==>
          places[k].t in filling && filling[places[k].t].node == k)
    && (forall k :: 0 <= k < |places| && places[k].InRecv? ==>
          places[k].t in draining && draining[places[k].t].node == k)
  }

  /** In-flight nodes hold what their thread wrote or is about to read. */
  ghost predicate InFlight(next: seq<int>, data: seq<Message>,
                           filling: map<Thread, Filling>, draining: map<Thread, Draining>) {
    && |next| == |data|
    && (forall t :: t in filling ==> filling[t].node < |next|)
    && (forall t :: t in draining ==> draining[t].node < |next|)
    && (forall t :: t in filling && filling[t].copied ==>
          && data[filling[t].node] == filling[t].msg
          && (!filling[t].urgent ==> next[filling[t].node] == NULL))
    && (forall t :: t in draining ==> data[draining[t].node] == draining[t].msg)
  }

  /** The messages of the queued nodes, in link order. */
  ghost predicate Represents(data: seq<Message>, qs: seq<nat>, deque: seq<Message>) {
    |deque| == |qs| && forall i :: 0 <= i < |qs| ==> qs[i] < |data| && deque[i] == data[qs[i]]
  }

  ghost predicate Structure(r: Run) {
    && Lists(r.s, r.fs, r.qs)
    && |r.places| == |r.s.next| && Located(r.places, r.fs, r.qs, r.filling, r.draining)
    && InFlight(r.s.next, r.s.data, r.filling, r.draining)
    && Represents(r.s.data, r.qs, r.deque)
  }

  // ----- moving one node from place to place

  lemma LocateTaken(places: seq<Place>, fs: seq<nat>, qs: seq<nat>, filling: map<Thread, Filling>,
                    draining: map<Thread, Draining>, t: Thread, f: Filling)
    requires Located(places, fs, qs, filling, draining) && Distinct(fs)
    requires fs != [] && f.node == fs[0] < |places| && t !in filling
    ensures Located(places[f.node := InSend(t)], fs[1..], qs, filling[t := f], draining)
  {
    var k := fs[0];
    assert k in fs && places[k] == IsFree;
    assert forall x :: x in fs <==> x == k || x in fs[1..];
  }

  lemma LocateLinked(places: seq<Place>, fs: seq<nat>, qs: seq<nat>, qs': seq<nat>, filling: map<Thread, Filling>,
                     draining: map<Thread, Draining>, t: Thread)
    requires Located(places, fs, qs, filling, draining) && t in filling && filling[t].node < |places|
    requires forall x :: x in qs' <==> x in qs || x == filling[t].node
    ensures Located(places[filling[t].node := IsQueued], fs, qs', filling - {t}, draining)
  {
  }

  lemma LocateUnlinked(places: seq<Place>, fs: seq<nat>, qs: seq<nat>, filling: map<Thread, Filling>,
                       draining: map<Thread, Draining>, t: Thread, d: Draining)
    requires Located(places, fs, qs, filling, draining) && Distinct(qs)
    requires qs != [] && d.node == qs[0] < |places| && t !in draining
    ensures Located(places[d.node := InRecv(t)], fs, qs[1..], filling, draining[t := d])
  {
    var k := qs[0];
    assert k in qs && places[k] == IsQueued;
    assert forall x :: x in qs <==> x == k || x in qs[1..];
  }

  lemma LocateReturned(places: seq<Place>, fs: seq<nat>, qs: seq<nat>, filling: map<Thread, Filling>,
                       draining: map<Thread, Draining>, t: Thread)
    requires Located(places, fs, qs, filling, draining) && t in draining && draining[t].node < |places|
    ensures Located(places[draining[t].node := IsFree], [draining[t].node] + fs, qs, filling, draining - {t})
  {
    var k := draining[t].node;
    assert forall x :: x in [k] + fs <==> x == k || x in fs;
  }

  function AllFreed(places: seq<Place>): (r: seq<Place>)
    ensures |r| == |places|
    ensures forall k :: 0 <= k < |r| ==> r[k] == if places[k] == IsQueued then IsFree else places[k]
  {
    seq(|places|, k requires 0 <= k < |places| => if places[k] == IsQueued then IsFree else places[k])
  }

  lemma LocateReset(places: seq<Place>, fs: seq<nat>, qs: seq<nat>, filling: map<Thread, Filling>,
                    draining: map<Thread, Draining>)
    requires Located(places, fs, qs, filling, draining)
    ensures Located(AllFreed(places), Reversed(qs) + fs, [], filling, draining)
  {
    ReversedMembers(qs);
    assert forall x :: x in Reversed(qs) + fs <==> x in qs || x in fs;
  }

  // ----- what is in flight

  /** A node in no thread's hands can be relinked without touching what is in flight. */
  lemma FlightFrame(next: seq<int>, data: seq<Message>, filling: map<Thread, Filling>,
                    draining: map<Thread, Draining>, k: nat, v: int)
    requires InFlight(next, data, filling, draining) && k < |next|
    requires (forall t :: t in filling ==> filling[t].node != k) && (forall t :: t in draining ==> draining[t].node != k)
    ensures InFlight(Store(next, k, v), data, filling, draining)
  {
  }

  lemma FlightFilled(places: seq<Place>, next: seq<int>, data: seq<Message>, fs: seq<nat>, qs: seq<nat>,
                     filling: map<Thread, Filling>, draining: map<Thread, Draining>, t: Thread)
    requires Located(places, fs, qs, filling, draining) && InFlight(next, data, filling, draining)
    requires t in filling
    ensures var f := filling[t];
            InFlight(Store(next, f.node, if f.urgent then Link(next, f.node) else NULL), Store(data, f.node, f.msg),
                     filling[t := f.(copied := true)], draining)
  {
    var k := filling[t].node;
    forall x | x in filling && x != t ensures filling[x].node != k {
      assert places[filling[x].node] == InSend(x);
    }
    forall x | x in draining ensures draining[x].node != k {
      assert places[draining[x].node] == InRecv(x);
    }
  }

  /** Nobody holds a node that is free or queued. */
  lemma NotHeld(places: seq<Place>, fs: seq<nat>, qs: seq<nat>,
                filling: map<Thread, Filling>, draining: map<Thread, Draining>, k: nat)
    requires Located(places, fs, qs, filling, draining) && k < |places| && (k in fs || k in qs)
    ensures (forall t :: t in filling ==> filling[t].node != k) && (forall t :: t in draining ==> draining[t].node != k)
  {
  }

  /** A node handed back is no longer in anyone's hands. */
  lemma HeldOnce(places: seq<Place>, fs: seq<nat>, qs: seq<nat>,
                 filling: map<Thread, Filling>, draining: map<Thread, Draining>, t: Thread)
    requires Located(places, fs, qs, filling, draining)
    ensures t in filling ==>
              && (forall x :: x in filling - {t} ==> filling[x].node != filling[t].node)
              && (forall x :: x in draining ==> draining[x].node != filling[t].node)
    ensures t in draining ==>
              && (forall x :: x in filling ==> filling[x].node != draining[t].node)
              && (forall x :: x in draining - {t} ==> draining[x].node != draining[t].node)
  {
  }

  lemma {:induction false} DrainFrame(next: seq<int>, free: int, ns: seq<nat>, k: nat)
    requires k < |next| && k !in ns
    ensures Drain(next, free, ns).0[k] == next[k]
    decreases |ns|
  {
    if ns != [] { DrainFrame(Store(next, ns[0], free), ns[0], ns[1..], k); }
  }

  lemma FlightReset(places: seq<Place>, next: seq<int>, data: seq<Message>, free: int, fs: seq<nat>, qs: seq<nat>,
                    filling: map<Thread, Filling>, draining: map<Thread, Draining>)
    requires Located(places, fs, qs, filling, draining) && InFlight(next, data, filling, draining)
    requires |places| == |next|
    ensures InFlight(Drain(next, free, qs).0, data, filling, draining)
  {
    forall t | t in filling ensures Drain(next, free, qs).0[filling[t].node] == next[filling[t].node] {
      assert places[filling[t].node] == InSend(t);
      DrainFrame(next, free, qs, filling[t].node);
    }
  }

  // ----- steps

  datatype Op =
    | EnterSend(ps: Priorities, t: Thread, msg: Message, timeout: int)
    | RetrySend(ps: Priorities, t: Thread, timeout: int)
    | EnterUrgent(t: Thread, msg: Message)
    | CopyIn(t: Thread)
    | DoLink(t: Thread)
    | EnterRecv(ps: Priorities, t: Thread, timeout: int)
    | RetryRecv(ps: Priorities, t: Thread, timeout: int)
    | GiveBack(t: Thread)
    | DoExpire(t: Thread)
    | DoReset

  predicate Idle(r: Run, t: Thread) {
    t !in Members(r.s.receivers) && t !in Members(r.s.senders) && t !in r.filling && t !in r.draining
  }

  predicate Enabled(r: Run, op: Op) {
    match op
    case EnterSend(_, t, _, _) => Idle(r, t)
    case RetrySend(_, t, _) => t in r.s.senders.woken && t in r.carried
    case EnterUrgent(t, _) => Idle(r, t)
    case CopyIn(t) => t in r.filling && !r.filling[t].copied
    case DoLink(t) => t in r.filling && r.filling[t].copied
    case EnterRecv(_, t, _) => Idle(r, t)
    case RetryRecv(_, t, _) => t in r.s.receivers.woken
    case GiveBack(t) => t in r.draining
    case DoExpire(t) => t in r.s.receivers.list || t in r.s.senders.list
    case DoReset => true
  }

  /** The first section of a sender. */
  function SendStep(flag: Flag, ps: Priorities, r: Run, t: Thread, msg: Message, urgent: bool, timeout: int): Run {
    var (s, status, node) := TakeNode(flag, ps, r.s, t, timeout);
    match status
    case Blocked => r.(s := s, carried := r.carried[t := msg])
    case Ok =>
      if r.fs == [] || node < 0 then r
      else r.(s := s, fs := r.fs[1..], places := Store(r.places, node, InSend(t)),
              filling := r.filling[t := Filling(node, msg, urgent, false)])
    case _ => r
  }

  /** Outside any section: clear the link (not for an urgent message) and copy the message in. */
  function FillStep(r: Run, t: Thread): Run
    requires t in r.filling
  {
    var f := r.filling[t];
    r.(s := r.s.(next := Store(r.s.next, f.node, if f.urgent then Link(r.s.next, f.node) else NULL),
                 data := Store(r.s.data, f.node, f.msg)),
       filling := r.filling[t := f.(copied := true)])
  }

  /** The second section of a sender; the deque grows at its back or, urgently, at its front. */
  function LinkStep(r: Run, t: Thread): Run
    requires t in r.filling
  {
    var f := r.filling[t];
    var m := r.(places := Store(r.places, f.node, IsQueued), filling := r.filling - {t});
    if f.urgent then m.(s := LinkFront(r.s, f.node), qs := [f.node] + r.qs, deque := [f.msg] + r.deque)
    else m.(s := LinkBack(r.s, f.node), qs := r.qs + [f.node], deque := r.deque + [f.msg])
  }

  /** The first section of a receiver; the deque loses its front. */
  function RecvStep(flag: Flag, ps: Priorities, r: Run, t: Thread, timeout: int): Run {
    var (s, status, node) := Unlink(flag, ps, r.s, t, timeout);
    match status
    case Ok =>
      if r.qs == [] || r.deque == [] || node < 0 then r
      else r.(s := s, qs := r.qs[1..], deque := r.deque[1..], places := Store(r.places, node, InRecv(t)),
              draining := r.draining[t := Draining(node, r.deque[0])])
    case _ => r.(s := s)
  }

  /** The second section of a receiver. */
  function ReturnStep(r: Run, t: Thread): Run
    requires t in r.draining
  {
    var k := r.draining[t].node;
    r.(s := ReturnNode(r.s, k), fs := [k] + r.fs, places := Store(r.places, k, IsFree), draining := r.draining - {t})
  }

  function ResetStep(r: Run): Run {
    r.(s := Reset(r.s, r.qs), fs := Reversed(r.qs) + r.fs, qs := [], places := AllFreed(r.places), deque := [])
  }

  function Step(flag: Flag, r: Run, op: Op): Run
    requires Enabled(r, op)
  {
    match op
    case EnterSend(ps, t, msg, timeout) => SendStep(flag, ps, r, t, msg, false, timeout)
    case RetrySend(ps, t, timeout) =>
      SendStep(flag, ps, r.(s := r.s.(senders := Reenter(r.s.senders, t))), t, r.carried[t], false, timeout)
    case EnterUrgent(t, msg) => SendStep(flag, [], r, t, msg, true, 0)
    case CopyIn(t) => FillStep(r, t)
    case DoLink(t) => LinkStep(r, t)
    case EnterRecv(ps, t, timeout) => RecvStep(flag, ps, r, t, timeout)
    case RetryRecv(ps, t, timeout) =>
      RecvStep(flag, ps, r.(s := r.s.(receivers := Reenter(r.s.receivers, t))), t, timeout)
    case GiveBack(t) => ReturnStep(r, t)
    case DoExpire(t) =>
      r.(s := if t in r.s.receivers.list then r.s.(receivers := Leave(r.s.receivers, t))
              else r.s.(senders := Leave(r.s.senders, t)))
    case DoReset => ResetStep(r)
  }

  // ----- every step keeps the structure

  /** The structure of a run whose components are these. */
  lemma StructureWith(r: Run, s: State, fs: seq<nat>, qs: seq<nat>, places: seq<Place>,
                      filling: map<Thread, Filling>, draining: map<Thread, Draining>, deque: seq<Message>)
    requires Lists(s, fs, qs) && |places| == |s.next| && Located(places, fs, qs, filling, draining)
    requires InFlight(s.next, s.data, filling, draining) && Represents(s.data, qs, deque)
    requires r.s == s && r.fs == fs && r.qs == qs && r.places == places
    requires r.filling == filling && r.draining == draining && r.deque == deque
    ensures Structure(r)
  {
  }

  /** Who sleeps does not matter to the lists. */
  lemma SidesKeepStructure(r: Run, receivers: Side, senders: Side, carried: map<Thread, Message>)
    requires Structure(r)
    ensures Structure(r.(s := r.s.(receivers := receivers, senders := senders), carried := carried))
  {
    var s := r.s.(receivers := receivers, senders := senders);
    StructureWith(r.(s := s, carried := carried), s, r.fs, r.qs, r.places, r.filling, r.draining, r.deque);
  }

  lemma FlightTaken(next: seq<int>, data: seq<Message>, filling: map<Thread, Filling>,
                    draining: map<Thread, Draining>, t: Thread, f: Filling)
    requires InFlight(next, data, filling, draining) && f.node < |next| && !f.copied
    ensures InFlight(next, data, filling[t := f], draining)
  {
  }

  lemma TakeKeepsStructure(flag: Flag, ps: Priorities, r: Run, t: Thread, msg: Message, urgent: bool, timeout: int)
    requires Structure(r) && t !in r.filling && t !in r.draining && r.s.free != NULL
    ensures Structure(SendStep(flag, ps, r, t, msg, urgent, timeout))
  {
    var r', f := SendStep(flag, ps, r, t, msg, urgent, timeout), Filling(r.fs[0], msg, urgent, false);
    TakeKeeps(r.s, r.fs, r.qs);
    LocateTaken(r.places, r.fs, r.qs, r.filling, r.draining, t, f);
    FlightTaken(r.s.next, r.s.data, r.filling, r.draining, t, f);
    StructureWith(r', r.s.(free := Link(r.s.next, r.s.free)), r.fs[1..], r.qs, r.places[f.node := InSend(t)],
                  r.filling[t := f], r.draining, r.deque);
  }

  lemma SendKeepsStructure(flag: Flag, ps: Priorities, r: Run, t: Thread, msg: Message, urgent: bool, timeout: int)
    requires Structure(r) && t !in r.filling && t !in r.draining
    ensures Structure(SendStep(flag, ps, r, t, msg, urgent, timeout))
  {
    if r.s.free != NULL {
      TakeKeepsStructure(flag, ps, r, t, msg, urgent, timeout);
    } else if timeout != 0 {
      SidesKeepStructure(r, r.s.receivers, Sleep(ps, flag, r.s.senders, t), r.carried[t := msg]);
    }
  }

  lemma FillKeepsStructure(r: Run, t: Thread)
    requires Structure(r) && t in r.filling
    ensures Structure(FillStep(r, t))
  {
    var f, r' := r.filling[t], FillStep(r, t);
    var next := if f.urgent then Link(r.s.next, f.node) else NULL;
    assert r.places[f.node] == InSend(t);
    FillKeeps(r.s, r.fs, r.qs, f.node, next, f.msg);
    FlightFilled(r.places, r.s.next, r.s.data, r.fs, r.qs, r.filling, r.draining, t);
    FillLocated(r.places, r.fs, r.qs, r.filling, r.draining, t);
    FillRepresents(r.s.data, r.qs, r.deque, f.node, f.msg);
    StructureWith(r', r.s.(next := r.s.next[f.node := next], data := r.s.data[f.node := f.msg]), r.fs, r.qs,
                  r.places, r.filling[t := f.(copied := true)], r.draining, r.deque);
  }

  lemma FillLocated(places: seq<Place>, fs: seq<nat>, qs: seq<nat>,
                    filling: map<Thread, Filling>, draining: map<Thread, Draining>, t: Thread)
    requires Located(places, fs, qs, filling, draining) && t in filling
    ensures Located(places, fs, qs, filling[t := filling[t].(copied := true)], draining)
  {
  }

  lemma FillRepresents(data: seq<Message>, qs: seq<nat>, deque: seq<Message>, k: nat, msg: Message)
    requires Represents(data, qs, deque) && k < |data| && k !in qs
    ensures Represents(data[k := msg], qs, deque)
  {
    assert forall i :: 0 <= i < |qs| ==> qs[i] in qs;
  }

  lemma FlightLess(next: seq<int>, data: seq<Message>,
                   filling: map<Thread, Filling>, draining: map<Thread, Draining>, t: Thread)
    requires InFlight(next, data, filling, draining)
    ensures InFlight(next, data, filling - {t}, draining) && InFlight(next, data, filling, draining - {t})
  {
  }

  /** Once its thread lets go of it, a node's link can be set. */
  lemma FlightReleased(places: seq<Place>, next: seq<int>, data: seq<Message>, fs: seq<nat>, qs: seq<nat>,
                       filling: map<Thread, Filling>, draining: map<Thread, Draining>, t: Thread, v: int)
    requires Located(places, fs, qs, filling, draining) && InFlight(next, data, filling, draining) && t in filling
    ensures InFlight(Store(next, filling[t].node, v), data, filling - {t}, draining)
  {
    HeldOnce(places, fs, qs, filling, draining, t);
    FlightLess(next, data, filling, draining, t);
    FlightFrame(next, data, filling - {t}, draining, filling[t].node, v);
  }

  lemma FlightAppended(places: seq<Place>, next: seq<int>, data: seq<Message>, fs: seq<nat>, qs: seq<nat>,
                       filling: map<Thread, Filling>, draining: map<Thread, Draining>, t: Thread, v: int)
    requires Located(places, fs, qs, filling, draining) && InFlight(next, data, filling, draining)
    requires |places| == |next| && Last(qs) < |next|
    ensures InFlight(if Last(qs) != NULL then Store(next, Last(qs), v) else next, data, filling - {t}, draining)
  {
    FlightLess(next, data, filling, draining, t);
    if qs != [] {
      NotHeld(places, fs, qs, filling, draining, qs[|qs| - 1]);
      FlightFrame(next, data, filling - {t}, draining, qs[|qs| - 1], v);
    }
  }

  lemma RepresentsLinked(data: seq<Message>, qs: seq<nat>, deque: seq<Message>, k: nat)
    requires Represents(data, qs, deque) && k < |data|
    ensures Represents(data, [k] + qs, [data[k]] + deque) && Represents(data, qs + [k], deque + [data[k]])
  {
  }

  lemma LinkFrontKeepsStructure(r: Run, t: Thread)
    requires Structure(r) && t in r.filling && r.filling[t].copied && r.filling[t].urgent
    ensures Structure(LinkStep(r, t))
  {
    var f := r.filling[t];
    var k, qs := f.node, [f.node] + r.qs;
    assert r.places[k] == InSend(t);
    LocateLinked(r.places, r.fs, r.qs, qs, r.filling, r.draining, t);
    LinkFrontKeeps(r.s, r.fs, r.qs, k);
    FlightReleased(r.places, r.s.next, r.s.data, r.fs, r.qs, r.filling, r.draining, t, r.s.head);
    RepresentsLinked(r.s.data, r.qs, r.deque, k);
    StructureWith(LinkStep(r, t), LinkFront(r.s, k), r.fs, qs, r.places[k := IsQueued],
                  r.filling - {t}, r.draining, [f.msg] + r.deque);
  }

  lemma LinkBackKeepsStructure(r: Run, t: Thread)
    requires Structure(r) && t in r.filling && r.filling[t].copied && !r.filling[t].urgent
    ensures Structure(LinkStep(r, t))
  {
    var f := r.filling[t];
    var k, qs := f.node, r.qs + [f.node];
    assert r.places[k] == InSend(t);
    LocateLinked(r.places, r.fs, r.qs, qs, r.filling, r.draining, t);
    LinkBackKeeps(r.s, r.fs, r.qs, k);
    FlightAppended(r.places, r.s.next, r.s.data, r.fs, r.qs, r.filling, r.draining, t, k);
    RepresentsLinked(r.s.data, r.qs, r.deque, k);
    StructureWith(LinkStep(r, t), LinkBack(r.s, k), r.fs, qs, r.places[k := IsQueued],
                  r.filling - {t}, r.draining, r.deque + [f.msg]);
  }

  lemma FlightDrained(next: seq<int>, data: seq<Message>, filling: map<Thread, Filling>,
                      draining: map<Thread, Draining>, t: Thread, d: Draining)
    requires InFlight(next, data, filling, draining) && d.node < |next| && data[d.node] == d.msg
    ensures InFlight(next, data, filling, draining[t := d])
  {
  }

  lemma UnlinkKeepsStructure(flag: Flag, ps: Priorities, r: Run, t: Thread, timeout: int)
    requires Structure(r) && t !in r.filling && t !in r.draining && r.s.entry != 0
    ensures Structure(RecvStep(flag, ps, r, t, timeout))
  {
    var d := Draining(r.qs[0], r.deque[0]);
    UnlinkKeeps(flag, ps, r.s, r.fs, r.qs, t, timeout);
    LocateUnlinked(r.places, r.fs, r.qs, r.filling, r.draining, t, d);
    FlightDrained(r.s.next, r.s.data, r.filling, r.draining, t, d);
    StructureWith(RecvStep(flag, ps, r, t, timeout), Unlink(flag, ps, r.s, t, timeout).0, r.fs, r.qs[1..],
                  r.places[d.node := InRecv(t)], r.filling, r.draining[t := d], r.deque[1..]);
  }

  lemma RecvKeepsStructure(flag: Flag, ps: Priorities, r: Run, t: Thread, timeout: int)
    requires Structure(r) && t !in r.filling && t !in r.draining
    ensures Structure(RecvStep(flag, ps, r, t, timeout))
  {
    if r.s.entry != 0 {
      UnlinkKeepsStructure(flag, ps, r, t, timeout);
    } else if timeout != 0 {
      SidesKeepStructure(r, Sleep(ps, flag, r.s.receivers, t), r.s.senders, r.carried);
    }
  }

  lemma ReturnKeepsStructure(r: Run, t: Thread)
    requires Structure(r) && t in r.draining
    ensures Structure(ReturnStep(r, t))
  {
    var k := r.draining[t].node;
    assert r.places[k] == InRecv(t);
    ReturnKeeps(r.s, r.fs, r.qs, k);
    LocateReturned(r.places, r.fs, r.qs, r.filling, r.draining, t);
    HeldOnce(r.places, r.fs, r.qs, r.filling, r.draining, t);
    FlightFrame(r.s.next, r.s.data, r.filling, r.draining - {t}, k, r.s.free);
  }

  lemma ResetKeepsStructure(r: Run)
    requires Structure(r)
    ensures Structure(ResetStep(r))
  {
    ResetKeeps(r.s, r.fs, r.qs);
    LocateReset(r.places, r.fs, r.qs, r.filling, r.draining);
    FlightReset(r.places, r.s.next, r.s.data, r.s.free, r.fs, r.qs, r.filling, r.draining);
  }

  // ----- every step keeps the wake-ups

  /** Threads between their two sections. */
  function Busy(r: Run): set<Thread> { r.filling.Keys + r.draining.Keys }

  /** Nobody is lost: receivers against the queued messages, senders against the free nodes. */
  ghost predicate Calm(r: Run) {
    Settled(r.s.receivers, r.s.senders, r.carried.Keys, Busy(r), r.s.entry, |r.fs|)
  }

  lemma CalmWith(r: Run, receivers: Side, senders: Side, holders: set<Thread>, busy: set<Thread>,
                 entry: int, free: int)
    requires Settled(receivers, senders, holders, busy, entry, free)
    requires r.s.receivers == receivers && r.s.senders == senders && r.carried.Keys == holders
    requires Busy(r) <= busy && r.s.entry == entry && |r.fs| == free
    ensures Calm(r)
  {
  }

  lemma FullKeepsCalm(flag: Flag, ps: Priorities, r: Run, t: Thread, msg: Message, urgent: bool, timeout: int)
    requires Calm(r) && Idle(r, t) && r.s.free == NULL && r.fs == []
    ensures Calm(SendStep(flag, ps, r, t, msg, urgent, timeout))
  {
    var s := r.s;
    if timeout != 0 {
      SenderSleeps(flag, ps, s.receivers, s.senders, r.carried.Keys, Busy(r), s.entry, t);
      KeysWith(r.carried, t, msg);
      CalmWith(SendStep(flag, ps, r, t, msg, urgent, timeout),
               s.receivers, Sleep(ps, flag, s.senders, t), r.carried.Keys + {t}, Busy(r), s.entry, 0);
    }
  }

  /** A send section by a caller in no list, whose re-entry may have used up one woken sender. */
  lemma SendKeepsCalm(flag: Flag, ps: Priorities, r: Run, t: Thread, msg: Message, urgent: bool, timeout: int)
    requires Lists(r.s, r.fs, r.qs) && Idle(r, t)
    requires Apart(r.s.receivers, r.s.senders, r.carried.Keys, Busy(r)) && NoneLost(r.s.receivers, r.s.entry)
    requires NoneLost(r.s.senders, |r.fs| - 1) && (r.fs == [] ==> NoneLost(r.s.senders, 0))
    ensures Calm(SendStep(flag, ps, r, t, msg, urgent, timeout))
  {
    var s := r.s;
    if s.free != NULL {
      CalmWith(SendStep(flag, ps, r, t, msg, urgent, timeout),
               s.receivers, s.senders, r.carried.Keys, Busy(r) + {t}, s.entry, |r.fs| - 1);
    } else {
      FullKeepsCalm(flag, ps, r, t, msg, urgent, timeout);
    }
  }

  lemma LinkKeepsCalm(r: Run, t: Thread)
    requires Calm(r) && Lists(r.s, r.fs, r.qs) && t in r.filling && Loose(r.s, r.fs, r.qs, r.filling[t].node)
    ensures Calm(LinkStep(r, t))
  {
    ReceiverWoken(r.s.receivers, r.s.senders, r.carried.Keys, Busy(r), r.s.entry, |r.fs|);
    EntryGrows(r.s, r.fs, r.qs, r.filling[t].node);
    CalmWith(LinkStep(r, t), WakeOne(r.s.receivers), r.s.senders, r.carried.Keys, Busy(r), r.s.entry + 1, |r.fs|);
  }

  lemma RecvKeepsCalm(flag: Flag, ps: Priorities, r: Run, t: Thread, timeout: int)
    requires Lists(r.s, r.fs, r.qs) && |r.deque| == |r.qs| && Idle(r, t)
    requires Apart(r.s.receivers, r.s.senders, r.carried.Keys, Busy(r)) && NoneLost(r.s.senders, |r.fs|)
    requires NoneLost(r.s.receivers, r.s.entry - 1) && (r.s.entry == 0 ==> NoneLost(r.s.receivers, 0))
    ensures Calm(RecvStep(flag, ps, r, t, timeout))
  {
    var r', s := RecvStep(flag, ps, r, t, timeout), r.s;
    if s.entry != 0 {
      EntryShrinks(s, r.fs, r.qs);
      CalmWith(r', s.receivers, s.senders, r.carried.Keys, Busy(r) + {t}, s.entry - 1, |r.fs|);
    } else if timeout != 0 {
      ReceiverSleeps(flag, ps, s.receivers, s.senders, r.carried.Keys, Busy(r), |r.fs|, t);
      CalmWith(r', Sleep(ps, flag, s.receivers, t), s.senders, r.carried.Keys, Busy(r), 0, |r.fs|);
    } else {
      CalmWith(r', s.receivers, s.senders, r.carried.Keys, Busy(r), 0, |r.fs|);
    }
  }

  lemma ReturnKeepsCalm(r: Run, t: Thread)
    requires Calm(r) && t in r.draining
    ensures Calm(ReturnStep(r, t))
  {
    SenderWoken(r.s.receivers, r.s.senders, r.carried.Keys, Busy(r), r.s.entry, |r.fs|);
    CalmWith(ReturnStep(r, t), r.s.receivers, WakeOne(r.s.senders), r.carried.Keys, Busy(r), r.s.entry, |r.fs| + 1);
  }

  // ----- the theorem

  ghost predicate Inv(r: Run) { Structure(r) && Calm(r) }

  lemma RetrySendKeeps(flag: Flag, ps: Priorities, r: Run, t: Thread, timeout: int)
    requires Inv(r) && Enabled(r, RetrySend(ps, t, timeout))
    ensures Inv(Step(flag, r, RetrySend(ps, t, timeout)))
  {
    var senders := Reenter(r.s.senders, t);
    var m := r.(s := r.s.(senders := senders));
    ReenterKeeps(r.s.senders, t, |r.fs|);
    SidesKeepStructure(r, r.s.receivers, senders, r.carried);
    SendKeepsStructure(flag, ps, m, t, r.carried[t], false, timeout);
    SendKeepsCalm(flag, ps, m, t, r.carried[t], false, timeout);
  }

  lemma RetryRecvKeeps(flag: Flag, ps: Priorities, r: Run, t: Thread, timeout: int)
    requires Inv(r) && Enabled(r, RetryRecv(ps, t, timeout))
    ensures Inv(Step(flag, r, RetryRecv(ps, t, timeout)))
  {
    var receivers := Reenter(r.s.receivers, t);
    var m := r.(s := r.s.(receivers := receivers));
    ReenterKeeps(r.s.receivers, t, r.s.entry);
    SidesKeepStructure(r, receivers, r.s.senders, r.carried);
    RecvKeepsStructure(flag, ps, m, t, timeout);
    RecvKeepsCalm(flag, ps, m, t, timeout);
  }

  lemma LinkKeeps(r: Run, t: Thread)
    requires Inv(r) && t in r.filling && r.filling[t].copied
    ensures Inv(LinkStep(r, t))
  {
    if r.filling[t].urgent { LinkFrontKeepsStructure(r, t); } else { LinkBackKeepsStructure(r, t); }
    assert r.places[r.filling[t].node] == InSend(t);
    LinkKeepsCalm(r, t);
  }

  lemma ExpireKeeps(flag: Flag, r: Run, t: Thread)
    requires Inv(r) && Enabled(r, DoExpire(t))
    ensures Inv(Step(flag, r, DoExpire(t)))
  {
    var r', s := Step(flag, r, DoExpire(t)), r.s;
    if t in s.receivers.list {
      ReceiverLeaves(s.receivers, s.senders, r.carried.Keys, Busy(r), s.entry, |r.fs|, t);
      SidesKeepStructure(r, Leave(s.receivers, t), s.senders, r.carried);
      CalmWith(r', Leave(s.receivers, t), s.senders, r.carried.Keys, Busy(r), s.entry, |r.fs|);
    } else {
      SenderLeaves(s.receivers, s.senders, r.carried.Keys, Busy(r), s.entry, |r.fs|, t);
      SidesKeepStructure(r, s.receivers, Leave(s.senders, t), r.carried);
      CalmWith(r', s.receivers, Leave(s.senders, t), r.carried.Keys, Busy(r), s.entry, |r.fs|);
    }
  }

  lemma FillKeepsInv(r: Run, t: Thread)
    requires Inv(r) && t in r.filling
    ensures Inv(FillStep(r, t))
  {
    FillKeepsStructure(r, t);
    CalmWith(FillStep(r, t), r.s.receivers, r.s.senders, r.carried.Keys, Busy(r), r.s.entry, |r.fs|);
  }

  lemma ResetKeepsInv(r: Run)
    requires Inv(r)
    ensures Inv(ResetStep(r))
  {
    ResetKeepsStructure(r);
    AllDismissed(r.s.receivers, r.s.senders, r.carried.Keys, Busy(r), r.s.entry, |r.fs|, 0, |ResetStep(r).fs|);
    CalmWith(ResetStep(r), Dismiss(r.s.receivers), Dismiss(r.s.senders), r.carried.Keys, Busy(r), 0, |ResetStep(r).fs|);
  }

  /** Every step keeps the lists, the places, the deque and the wake-ups. */
  lemma StepKeepsInv(flag: Flag, r: Run, op: Op)
    requires Inv(r) && Enabled(r, op)
    ensures Inv(Step(flag, r, op))
  {
    match op
    case EnterSend(ps, t, msg, timeout) =>
      SendKeepsStructure(flag, ps, r, t, msg, false, timeout);
      SendKeepsCalm(flag, ps, r, t, msg, false, timeout);
    case RetrySend(ps, t, timeout) => RetrySendKeeps(flag, ps, r, t, timeout);
    case EnterUrgent(t, msg) =>
      SendKeepsStructure(flag, [], r, t, msg, true, 0);
      SendKeepsCalm(flag, [], r, t, msg, true, 0);
    case CopyIn(t) => FillKeepsInv(r, t);
    case DoLink(t) => LinkKeeps(r, t);
    case EnterRecv(ps, t, timeout) =>
      RecvKeepsStructure(flag, ps, r, t, timeout);
      RecvKeepsCalm(flag, ps, r, t, timeout);
    case RetryRecv(ps, t, timeout) => RetryRecvKeeps(flag, ps, r, t, timeout);
    case GiveBack(t) =>
      ReturnKeepsStructure(r, t);
      ReturnKeepsCalm(r, t);
    case DoExpire(t) => ExpireKeeps(flag, r, t);
    case DoReset => ResetKeepsInv(r);
  }

  /** The links the initialisation loop leaves: every node to the one before it. */
  function InitialLinks(n: nat): (next: seq<int>)
    ensures |next| == n && forall i :: 0 <= i < n ==> next[i] == i - 1
  {
    seq(n, i => i - 1)
  }

  function Countdown(n: nat): (ns: seq<nat>)
    ensures |ns| == n && forall i :: 0 <= i < n ==> ns[i] == n - 1 - i
  {
    seq(n, i requires 0 <= i < n => n - 1 - i)
  }

  function Init(data: seq<Message>): Run {
    var n := |data|;
    Run(State(InitialLinks(n), data, NULL, NULL, n - 1, 0, Side([], {}), Side([], {})),
        Countdown(n), [], seq(n, i => IsFree), map[], map[], map[], [])
  }

  lemma InitLocated(n: nat)
    ensures Located(seq(n, i => IsFree), Countdown(n), [], map[], map[])
  {
    forall k | 0 <= k < n ensures k in Countdown(n) {
      assert Countdown(n)[n - 1 - k] == k;
    }
  }

  lemma InitInv(data: seq<Message>)
    requires |data| < UINT16
    ensures Inv(Init(data))
  {
    var r := Init(data);
    InitLocated(|data|);
    StructureWith(r, r.s, Countdown(|data|), [], r.places, map[], map[], []);
  }

  ghost predicate IsRun(flag: Flag, trace: seq<Run>, ops: seq<Op>) {
    && |trace| == |ops| + 1 && |trace[0].s.data| < UINT16 && trace[0] == Init(trace[0].s.data)
    && forall i :: 0 <= i < |ops| ==> Enabled(trace[i], ops[i]) && trace[i + 1] == Step(flag, trace[i], ops[i])
  }

  /**
   * Over every run: the pool splits exactly into the free list, the queue and the nodes in
   * flight, the queue is the bounded deque, `entry` and `tail` describe it, and no wake-up
   * of a receiver (for a queued message) or of a sender (for a free node) is lost.
   */
  lemma {:induction false} RunKeepsInv(flag: Flag, trace: seq<Run>, ops: seq<Op>, k: nat)
    requires IsRun(flag, trace, ops) && k < |trace|
    ensures Inv(trace[k])
  {
    if k > 0 {
      RunKeepsInv(flag, trace, ops, k - 1);
      StepKeepsInv(flag, trace[k - 1], ops[k - 1]);
    } else {
      InitInv(trace[0].s.data);
    }
  }

  // ----- what a call answers

  /** A node is taken exactly when one is free; the sender is refused or sleeps, by its timeout, exactly when none is. */
  lemma TakeLaw(flag: Flag, ps: Priorities, s: State, fs: seq<nat>, qs: seq<nat>, t: Thread, timeout: int)
    requires Lists(s, fs, qs)
    ensures var (r, status, node) := TakeNode(flag, ps, s, t, timeout);
            && (status == Ok <==> fs != [])
            && (status == Full <==> fs == [] && timeout == 0)
            && (status == Blocked <==> fs == [] && timeout != 0)
            && (status == Ok ==> node == fs[0] && r == s.(free := r.free) && Lists(r, fs[1..], qs))
            && (status == Full ==> r == s)
            && (status == Blocked ==>
                  && r == s.(senders := r.senders) && r.senders.woken == s.senders.woken
                  && Joins(s.senders.list, t, r.senders.list))
  {
    if fs != [] { TakeKeeps(s, fs, qs); }
    SuspendJoins(ps, flag, s.senders.list, t);
  }

  /** The first message is taken exactly when there is one; the receiver times out or sleeps exactly when there is none. */
  lemma UnlinkLaw(flag: Flag, ps: Priorities, s: State, fs: seq<nat>, qs: seq<nat>, t: Thread, timeout: int)
    requires Lists(s, fs, qs)
    ensures var (r, status, node) := Unlink(flag, ps, s, t, timeout);
            && (status == Ok <==> qs != [])
            && (status == TimedOut <==> qs == [] && timeout == 0)
            && (status == Blocked <==> qs == [] && timeout != 0)
            && (status == Ok ==> node == qs[0] && Lists(r, fs, qs[1..]) && r.next == s.next && r.data == s.data)
            && (status == TimedOut ==> r == s)
            && (status == Blocked ==>
                  && r == s.(receivers := r.receivers) && r.receivers.woken == s.receivers.woken
                  && Joins(s.receivers.list, t, r.receivers.list))
  {
    if qs != [] { UnlinkKeeps(flag, ps, s, fs, qs, t, timeout); }
    SuspendJoins(ps, flag, s.receivers.list, t);
  }

  /** The first section of a send, in a run. */
  function Entered(flag: Flag, ps: Priorities, r: Run, t: Thread, msg: Message, urgent: bool, timeout: int): Run
    requires Idle(r, t)
  {
    Step(flag, r, if urgent then EnterUrgent(t, msg) else EnterSend(ps, t, msg, timeout))
  }

  /** With a node free, a sender has it in hand, with its message; with none it is refused or sleeps with its message. */
  lemma EnterLaw(flag: Flag, ps: Priorities, r: Run, t: Thread, msg: Message, urgent: bool, timeout: int)
    requires Inv(r) && Idle(r, t)
    ensures var e := Entered(flag, ps, r, t, msg, urgent, timeout);
            && (r.fs != [] ==>
                  && t in e.filling && e.filling[t] == Filling(r.fs[0], msg, urgent, false)
                  && e.fs == r.fs[1..] && e.deque == r.deque && e.draining == r.draining)
            && (r.fs == [] && (urgent || timeout == 0) ==> e == r)
            && (r.fs == [] && !urgent && timeout != 0 ==>
                  && Joins(r.s.senders.list, t, e.s.senders.list) && e.carried == r.carried[t := msg]
                  && e.deque == r.deque && e.fs == r.fs && e.filling == r.filling)
  {
    TakeLaw(flag, if urgent then [] else ps, r.s, r.fs, r.qs, t, if urgent then 0 else timeout);
  }

  /**
   * From any reachable state with a node free, the three steps of a send go through, whatever the
   * timeout, and the deque is the old one with the message at its back, or at its front if urgent.
   */
  lemma SendGoesThrough(flag: Flag, ps: Priorities, r: Run, t: Thread, msg: Message, urgent: bool, timeout: int)
    requires Inv(r) && Idle(r, t) && r.fs != []
    ensures var e := Entered(flag, ps, r, t, msg, urgent, timeout);
            && Enabled(e, CopyIn(t)) && Enabled(Step(flag, e, CopyIn(t)), DoLink(t))
            && var done := Step(flag, Step(flag, e, CopyIn(t)), DoLink(t));
               && Inv(done) && done.deque == (if urgent then [msg] + r.deque else r.deque + [msg])
               && t !in done.filling && done.fs == r.fs[1..]
  {
    var e := Entered(flag, ps, r, t, msg, urgent, timeout);
    EnterLaw(flag, ps, r, t, msg, urgent, timeout);
    StepKeepsInv(flag, r, if urgent then EnterUrgent(t, msg) else EnterSend(ps, t, msg, timeout));
    StepKeepsInv(flag, e, CopyIn(t));
    var c := Step(flag, e, CopyIn(t));
    StepKeepsInv(flag, c, DoLink(t));
  }

  /** With a message queued, a receive takes the first one, whatever its timeout, and gives its node back. */
  lemma RecvGoesThrough(flag: Flag, ps: Priorities, r: Run, t: Thread, timeout: int)
    requires Inv(r) && Idle(r, t) && r.deque != []
    ensures var e := Step(flag, r, EnterRecv(ps, t, timeout));
            && t in e.draining && e.draining[t].msg == r.deque[0] && e.deque == r.deque[1..]
            && e.draining[t].node < |e.s.data| && e.s.data[e.draining[t].node] == r.deque[0]
            && Enabled(e, GiveBack(t))
            && var done := Step(flag, e, GiveBack(t));
               Inv(done) && done.deque == r.deque[1..] && t !in done.draining && |done.fs| == |r.fs| + 1
  {
    UnlinkLaw(flag, ps, r.s, r.fs, r.qs, t, timeout);
    StepKeepsInv(flag, r, EnterRecv(ps, t, timeout));
    StepKeepsInv(flag, Step(flag, r, EnterRecv(ps, t, timeout)), GiveBack(t));
  }

  /** With none queued it times out and changes nothing, or sleeps. */
  lemma EmptyRecvLaw(flag: Flag, ps: Priorities, r: Run, t: Thread, timeout: int)
    requires Inv(r) && Idle(r, t) && r.deque == []
    ensures var e := Step(flag, r, EnterRecv(ps, t, timeout));
            && (timeout == 0 ==> e == r)
            && (timeout != 0 ==>
                  Joins(r.s.receivers.list, t, e.s.receivers.list) && e.fs == r.fs && e.draining == r.draining)
  {
    UnlinkLaw(flag, ps, r.s, r.fs, r.qs, t, timeout);
  }

  /** RESET leaves no message and nobody asleep, and every node that was queued is free. */
  lemma ResetLaw(flag: Flag, r: Run)
    requires Inv(r)
    ensures var e := Step(flag, r, DoReset);
            && e.deque == [] && e.s.entry == 0 && e.s.receivers.list == [] && e.s.senders.list == []
            && |e.fs| == |r.fs| + |r.qs| && forall k :: k in e.fs <==> k in r.fs || k in r.qs
  {
    ReversedMembers(r.qs);
    assert forall k :: k in Reversed(r.qs) + r.fs <==> k in Reversed(r.qs) || k in r.fs;
  }

  // ----- the object

  class MessageQueueObject {
    const flag: Flag
    const next: array<int>
    const data: array<Message>
    var head: int
    var tail: int
    var free: int
    var entry: nat
    var suspended: seq<Thread>
    var suspendedSenders: seq<Thread>
    ghost var woken: set<Thread>
    ghost var wokenSenders: set<Thread>

    ghost function View(): State
      reads this, next, data
    {
      State(next[..], data[..], head, tail, free, entry,
            Side(suspended, woken), Side(suspendedSenders, wokenSenders))
    }

    /** `rt_mq_init`: the loop pushes the nodes of the pool on the free list. */
    constructor (flag: Flag, data: array<Message>)
      ensures this.flag == flag && this.data == data && fresh(next) && View() == Init(data[..]).s
    {
      var links := new int[data.Length];
      var front := NULL;
      for temp := 0 to data.Length
        modifies links
        invariant front == temp - 1 && forall i :: 0 <= i < temp ==> links[i] == i - 1
      {
        links[temp] := front;
        front := temp;
      }
      this.flag, this.data, this.next, this.free := flag, data, links, front;
      head, tail, entry, suspended, suspendedSenders := NULL, NULL, 0, [], [];
      woken, wokenSenders := {}, {};
    }

    /** `rt_mq_send_wait` and `rt_mq_urgent`: taking a node. */
    method TakeSection(ps: Priorities, thread: Thread, timeout: int, ghost fs: seq<nat>, ghost qs: seq<nat>)
        returns (status: Status, node: int)
      requires Lists(View(), fs, qs)
      modifies this`free, this`suspendedSenders
      ensures (View(), status, node) == TakeNode(flag, ps, old(View()), thread, timeout)
      ensures status == Ok ==> fs != [] && node == fs[0] && Lists(View(), fs[1..], qs)
    {
      if free == NULL {
        if timeout == 0 { return Full, NULL; }
        suspendedSenders := Suspend(ps, flag, suspendedSenders, thread);
        return Blocked, NULL;
      }
      TakeKeeps(View(), fs, qs);
      node := free;
      free := next[node];
      status := Ok;
    }

    /** Outside any section: the node is in the caller's hands. */
    method Fill(node: nat, msg: Message, urgent: bool)
      requires node < next.Length == data.Length
      modifies next, data
      ensures next[..] == old(next[..])[node := if urgent then old(next[node]) else NULL]
      ensures data[..] == old(data[..])[node := msg]
    {
      if !urgent { next[node] := NULL; }
      data[node] := msg;
    }

    method WakeReceiver()
      modifies this`suspended, this`woken
      ensures Side(suspended, woken) == WakeOne(old(Side(suspended, woken)))
    {
      if suspended != [] {
        woken := woken + {suspended[0]};
        suspended := suspended[1..];
      }
    }

    /** `rt_mq_send_wait`: linking the node at the tail. */
    method LinkBackSection(node: nat, ghost fs: seq<nat>, ghost qs: seq<nat>)
      requires Lists(View(), fs, qs) && Loose(View(), fs, qs, node) && next[node] == NULL
      modifies this, next
      ensures View() == LinkBack(old(View()), node) && Lists(View(), fs, qs + [node])
    {
      LinkBackKeeps(View(), fs, qs, node);
      if tail != NULL { next[tail] := node; }
      tail := node;
      if head == NULL { head := node; }
      entry := Inc16(entry);
      WakeReceiver();
    }

    /** `rt_mq_urgent`: linking the node at the head. */
    method LinkFrontSection(node: nat, ghost fs: seq<nat>, ghost qs: seq<nat>)
      requires Lists(View(), fs, qs) && Loose(View(), fs, qs, node)
      modifies this, next
      ensures View() == LinkFront(old(View()), node) && Lists(View(), fs, [node] + qs)
    {
      LinkFrontKeeps(View(), fs, qs, node);
      next[node] := head;
      head := node;
      if tail == NULL { tail := node; }
      entry := Inc16(entry);
      WakeReceiver();
    }

    /** `rt_mq_recv`: unlinking the first message. */
    method UnlinkSection(ps: Priorities, thread: Thread, timeout: int, ghost fs: seq<nat>, ghost qs: seq<nat>)
        returns (status: Status, node: int)
      requires Lists(View(), fs, qs)
      modifies this
      ensures (View(), status, node) == Unlink(flag, ps, old(View()), thread, timeout)
      ensures status == Ok ==> qs != [] && node == qs[0] && Lists(View(), fs, qs[1..])
    {
      if entry == 0 {
        if timeout == 0 { return TimedOut, NULL; }
        suspended := Suspend(ps, flag, suspended, thread);
        return Blocked, NULL;
      }
      UnlinkKeeps(flag, ps, View(), fs, qs, thread, timeout);
      node := head;
      head := next[node];
      if tail == node { tail := NULL; }
      entry := Dec16(entry);
      status := Ok;
    }

    /** `rt_mq_recv`: returning the node. */
    method ReturnSection(node: nat, ghost fs: seq<nat>, ghost qs: seq<nat>)
      requires Lists(View(), fs, qs) && Loose(View(), fs, qs, node)
      modifies this, next
      ensures View() == ReturnNode(old(View()), node) && Lists(View(), [node] + fs, qs)
    {
      ReturnKeeps(View(), fs, qs, node);
      next[node] := free;
      free := node;
      if suspendedSenders != [] {
        wokenSenders := wokenSenders + {suspendedSenders[0]};
        suspendedSenders := suspendedSenders[1..];
      }
    }

    /** The lists while the RESET loop moves the one onto the other. */
    ghost predicate Moving(fs: seq<nat>, qs: seq<nat>)
      reads this, next
    {
      && Chain(next[..], free, fs) && Chain(next[..], head, qs) && tail == Last(qs)
      && (forall k :: k in fs ==> k !in qs)
    }

    /** One turn of the RESET loop. */
    method DrainOne(ghost fs: seq<nat>, ghost qs: seq<nat>)
      requires Moving(fs, qs) && head != NULL
      modifies this`head, this`tail, this`free, next
      ensures qs != [] && qs[0] == old(head) && next[..] == old(next[..])[qs[0] := old(free)] && free == old(head)
      ensures Moving([qs[0]] + fs, qs[1..])
    {
      ChainPop(next[..], head, qs);
      ChainPush(next[..], free, fs, qs[0]);
      ChainFrame(next[..], next[head], qs[1..], qs[0], free);
      var msg := head;
      head := next[msg];
      if tail == msg { tail := NULL; }
      next[msg] := free;
      free := msg;
    }

    method DrainAll(ghost fs: seq<nat>, ghost qs: seq<nat>)
      requires Moving(fs, qs)
      modifies this`head, this`tail, this`free, next
      ensures (next[..], free) == Drain(old(next[..]), old(free), qs) && head == tail == NULL
    {
      ghost var done, rest := fs, qs;
      ghost var goal := Drain(next[..], free, qs);
      while head != NULL
        invariant Moving(done, rest) && Drain(next[..], free, rest) == goal
        decreases |rest|
      {
        DrainOne(done, rest);
        done, rest := [rest[0]] + done, rest[1..];
      }
    }

    /** `rt_mq_control` with RESET. */
    method ResetSection(ghost fs: seq<nat>, ghost qs: seq<nat>)
      requires Lists(View(), fs, qs)
      modifies this, next
      ensures View() == Reset(old(View()), qs) && Lists(View(), Reversed(qs) + fs, [])
    {
      ResetKeeps(View(), fs, qs);
      suspended, suspendedSenders := [], [];
      DrainAll(fs, qs);
      entry := 0;
    }
  }
}
