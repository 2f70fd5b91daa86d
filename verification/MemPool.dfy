/**
 * Fixed-block memory pools: `rt_mp_init`, `rt_mp_create`, `rt_mp_alloc`, `rt_mp_free`.
 * Several pools share one memory. A block is a header word followed by its payload;
 * the header links a free block to the next one and names the pool of a used block.
 */
module MemPool {
  import opened Kernel
  import opened Common
  import opened WaitList
  import opened Wakeups

  const NULL := 0
  const WORD := 4

  type Memory = map<int, int>

  // ----- where the blocks are

  datatype Geometry = Geometry(start: nat, size: nat, blockSize: nat, total: nat)

  function Stride(g: Geometry): nat { g.blockSize + WORD }

  function BlockAt(g: Geometry, k: int): int { g.start + k * Stride(g) }

  ghost predicate IsBlock(g: Geometry, a: int) { exists k :: 0 <= k < g.total && a == BlockAt(g, k) }

  function AlignUp(n: nat): nat { (n + (WORD - 1)) / WORD * WORD }

  function AlignDown(n: nat): nat { n / WORD * WORD }

  /** `rt_mp_init` carves as many blocks as fit. */
  function Carved(start: nat, size: nat, blockSize: nat): Geometry {
    var bs := AlignUp(blockSize);
    Geometry(start, AlignDown(size), bs, AlignDown(size) / (bs + WORD))
  }

  /** `rt_mp_create` asks the heap for exactly `count` blocks. */
  function Exact(start: nat, count: nat, blockSize: nat): Geometry {
    var bs := AlignUp(blockSize);
    Geometry(start, (bs + WORD) * count, bs, count)
  }

  ghost predicate Fits(g: Geometry) { g.start > 0 && g.total * Stride(g) <= g.size }

  lemma CarvedFits(start: nat, size: nat, blockSize: nat)
    requires start > 0
    ensures var g := Carved(start, size, blockSize);
            Fits(g) && g.size <= size && blockSize <= g.blockSize && g.size - g.total * Stride(g) < Stride(g)
  {
    var g := Carved(start, size, blockSize);
    assert g.size == g.total * Stride(g) + g.size % Stride(g);
  }

  lemma {:induction false} Multiples(i: int, j: int, s: nat)
    requires i < j
    ensures i * s + s <= j * s
    decreases j - i
  {
    if i + 1 < j { Multiples(i, j - 1, s); }
    assert j * s == (j - 1) * s + s;
  }

  lemma BlocksApart(g: Geometry, i: int, j: int)
    requires i < j
    ensures BlockAt(g, i) + Stride(g) <= BlockAt(g, j)
  {
    Multiples(i, j, Stride(g));
  }

  /** Every block lies inside the pool's area. */
  lemma BlockInside(g: Geometry, a: int)
    requires Fits(g) && IsBlock(g, a)
    ensures g.start <= a && a + Stride(g) <= g.start + g.size
  {
    var k :| 0 <= k < g.total && a == BlockAt(g, k);
    if k > 0 { BlocksApart(g, 0, k); }
    BlocksApart(g, k, g.total);
  }

  /** Two blocks do not overlap. */
  lemma BlocksDisjoint(g: Geometry, a: int, b: int)
    requires IsBlock(g, a) && IsBlock(g, b) && a != b
    ensures a + Stride(g) <= b || b + Stride(g) <= a
  {
    var i :| 0 <= i < g.total && a == BlockAt(g, i);
    var j :| 0 <= j < g.total && b == BlockAt(g, j);
    if i < j { BlocksApart(g, i, j); } else { BlocksApart(g, j, i); }
  }

  // ----- the free chain

  function After(ns: seq<nat>, i: nat): int { if i < |ns| then ns[i] else NULL }

  /** The blocks `ns` are linked from `head` and end in NULL, and none comes twice. */
  ghost predicate Chain(mem: Memory, head: int, ns: seq<nat>) {
    && head == After(ns, 0) && Distinct(ns)
    && (forall i :: 0 <= i < |ns| ==> ns[i] != NULL && ns[i] in mem && mem[ns[i]] == After(ns, i + 1))
  }

  lemma ChainFrame(mem: Memory, mem': Memory, head: int, ns: seq<nat>)
    requires Chain(mem, head, ns)
    requires forall i :: 0 <= i < |ns| ==> ns[i] in mem' && mem'[ns[i]] == mem[ns[i]]
    ensures Chain(mem', head, ns)
  {
  }

  lemma ChainPush(mem: Memory, head: int, ns: seq<nat>, a: nat)
    requires Chain(mem, head, ns) && a != NULL && a !in ns
    ensures Chain(mem[a := head], a, [a] + ns)
  {
    var r := [a] + ns;
    assert forall i :: 0 <= i <= |ns| ==> After(r, i + 1) == After(ns, i);
    assert forall i :: 0 < i < |r| ==> r[i] == ns[i - 1];
  }

  lemma ChainPop(mem: Memory, head: int, ns: seq<nat>, v: int)
    requires Chain(mem, head, ns) && ns != []
    ensures head == ns[0] && head in mem && head !in ns[1..] && Chain(mem[head := v], mem[head], ns[1..])
  {
    var r := ns[1..];
    assert mem[ns[0]] == After(ns, 1);
    assert forall i :: 0 <= i <= |r| ==> After(r, i) == After(ns, i + 1);
    assert forall i :: 0 <= i < |r| ==> r[i] == ns[i + 1];
  }

  // ----- one pool

  /**
   * The pool `id`: its free chain is `fs`, its used blocks are `used`; every block is
   * in exactly one of them, and the header of a used block names the pool.
   */
  ghost predicate Partition(mem: Memory, id: nat, g: Geometry, head: int, count: nat, fs: seq<nat>, used: set<nat>) {
    && Fits(g) && Chain(mem, head, fs) && count == |fs|
    && (forall a :: a in fs ==> IsBlock(g, a) && a !in used)
    && (forall a :: a in used ==> IsBlock(g, a) && a in mem && mem[a] == id)
    && (forall k :: 0 <= k < g.total ==> BlockAt(g, k) in fs || BlockAt(g, k) in used)
  }

  /** Memory outside the headers of a pool does not matter to it. */
  lemma PartitionFrame(mem: Memory, mem': Memory, id: nat, g: Geometry, head: int, count: nat,
                       fs: seq<nat>, used: set<nat>)
    requires Partition(mem, id, g, head, count, fs, used)
    requires forall a :: IsBlock(g, a) && a in mem ==> a in mem' && mem'[a] == mem[a]
    ensures Partition(mem', id, g, head, count, fs, used)
  {
    assert forall i :: 0 <= i < |fs| ==> fs[i] in fs;
    ChainFrame(mem, mem', head, fs);
  }

  lemma AllocPartition(mem: Memory, id: nat, g: Geometry, head: int, count: nat, fs: seq<nat>, used: set<nat>)
    requires Partition(mem, id, g, head, count, fs, used) && fs != []
    ensures head == fs[0] && head in mem
    ensures Partition(mem[head := id], id, g, mem[head], count - 1, fs[1..], used + {fs[0]})
  {
    ChainPop(mem, head, fs, id);
    assert forall a :: a in fs <==> a == head || a in fs[1..];
  }

  lemma FreePartition(mem: Memory, id: nat, g: Geometry, head: int, count: nat, fs: seq<nat>, used: set<nat>, a: nat)
    requires Partition(mem, id, g, head, count, fs, used) && a in used
    ensures Partition(mem[a := head], id, g, a, count + 1, [a] + fs, used - {a})
  {
    BlockInside(g, a);
    ChainPush(mem, head, fs, a);
    assert forall x :: x in [a] + fs <==> x == a || x in fs;
  }

  /** A word stored in the payload of a block overlaps no header, its own or another's. */
  lemma PayloadIsNoHeader(g: Geometry, a: int, off: nat, b: int)
    requires IsBlock(g, a) && WORD <= off && off + WORD <= Stride(g) && IsBlock(g, b)
    ensures b + WORD <= a + off || a + off + WORD <= b
  {
    if a != b { BlocksDisjoint(g, a, b); }
  }

  // ----- initialisation

  /** The loop: the first `k` headers link forward. */
  function Threaded(mem: Memory, g: Geometry, k: nat): Memory {
    if k == 0 then mem else Threaded(mem, g, k - 1)[BlockAt(g, k - 1) := BlockAt(g, k)]
  }

  /** The loop, and then the last header is cleared. */
  function Formatted(mem: Memory, g: Geometry): Memory {
    Threaded(mem, g, g.total)[BlockAt(g, g.total - 1) := NULL]
  }

  lemma {:induction false} ThreadedAt(mem: Memory, g: Geometry, k: nat)
    ensures forall i :: 0 <= i < k ==> BlockAt(g, i) in Threaded(mem, g, k) &&
                                       Threaded(mem, g, k)[BlockAt(g, i)] == BlockAt(g, i + 1)
    ensures forall a :: (forall i :: 0 <= i < k ==> a != BlockAt(g, i)) ==>
                          (a in Threaded(mem, g, k) <==> a in mem) && (a in mem ==> Threaded(mem, g, k)[a] == mem[a])
  {
    if k > 0 {
      ThreadedAt(mem, g, k - 1);
      forall i | 0 <= i < k - 1 ensures BlockAt(g, i) != BlockAt(g, k - 1) { BlocksApart(g, i, k - 1); }
    }
  }

  /** The blocks in address order. */
  function AllBlocks(g: Geometry): (ns: seq<nat>)
    ensures |ns| == g.total && forall k :: 0 <= k < |ns| ==> ns[k] == BlockAt(g, k)
  {
    seq(g.total, k requires 0 <= k < g.total => BlockAt(g, k))
  }

  /** With room for at least one block, initialisation leaves every block free, in address order. */
  lemma InitPartition(mem: Memory, id: nat, g: Geometry)
    requires Fits(g) && g.total > 0
    ensures Partition(Formatted(mem, g), id, g, g.start, g.total, AllBlocks(g), {})
  {
    var ns, m := AllBlocks(g), Formatted(mem, g);
    ThreadedAt(mem, g, g.total);
    assert ns[0] == BlockAt(g, 0) == g.start;
    forall i, j | 0 <= i < j < g.total ensures ns[i] < ns[j] { BlocksApart(g, i, j); }
    forall i | 0 <= i < g.total ensures ns[i] != NULL && ns[i] in m && m[ns[i]] == After(ns, i + 1) {
      assert BlockAt(g, i) == ns[i];
      BlockInside(g, ns[i]);
    }
    forall a | a in ns ensures IsBlock(g, a) {
      var k :| 0 <= k < |ns| && ns[k] == a;
      assert a == BlockAt(g, k);
    }
    forall k | 0 <= k < g.total ensures BlockAt(g, k) in ns { assert ns[k] == BlockAt(g, k); }
  }

  ghost predicate Within(g: Geometry, a: int) { g.start <= a < g.start + g.size }

  /**
   * Initialisation writes inside the area only, whatever is in memory, if and only if
   * there is room for one block: otherwise the last store lands one block before it.
   */
  lemma InitStaysInsideIff(g: Geometry)
    requires Fits(g)
    ensures (forall mem: Memory, a :: a in mem && !Within(g, a) ==> a in Formatted(mem, g) && Formatted(mem, g)[a] == mem[a])
            <==> g.total > 0
  {
    if g.total > 0 {
      forall mem: Memory, a | a in mem && !Within(g, a)
        ensures a in Formatted(mem, g) && Formatted(mem, g)[a] == mem[a]
      {
        ThreadedAt(mem, g, g.total);
        forall i | 0 <= i < g.total ensures a != BlockAt(g, i) {
          BlockInside(g, BlockAt(g, i));
        }
      }
    } else {
      var a := BlockAt(g, -1);
      var mem: Memory := map[a := 1];
      assert a in mem && !Within(g, a) && Formatted(mem, g)[a] == NULL;
    }
  }

  // ----- the operations

  datatype Pool = Pool(g: Geometry, list: int, count: nat, waiters: Side)

  function Cell(mem: Memory, a: int): int { if a in mem then mem[a] else NULL }

  /** The critical section of `rt_mp_alloc`, from the loop test on. */
  function Alloc(mem: Memory, id: nat, p: Pool, t: Thread, time: int): (Memory, Pool, Status, int) {
    if p.count == 0 then
      if time == 0 then (mem, p, TimedOut, NULL)
      else (mem, p.(waiters := SleepFirst(p.waiters, t)), Blocked, NULL)
    else
      (mem[p.list := id], p.(count := p.count - 1, list := Cell(mem, p.list)), Ok, p.list + WORD)
  }

  /** `rt_mp_free`, for a block whose header names the pool `p`. */
  function Free(mem: Memory, p: Pool, block: int): (Memory, Pool) {
    (mem[block - WORD := p.list], p.(count := p.count + 1, list := block - WORD, waiters := WakeOne(p.waiters)))
  }

  // ----- runs over any number of pools

  /** A pool with its free chain and its used blocks. */
  datatype Account = Account(p: Pool, fs: seq<nat>, used: set<nat>)

  /** Memory, and the pools by control-block address. */
  datatype World = World(mem: Memory, pools: map<nat, Account>)

  ghost predicate Healthy(mem: Memory, id: nat, c: Account) {
    && Partition(mem, id, c.p.g, c.p.list, c.p.count, c.fs, c.used)
    && Proper(c.p.waiters) && NoneLost(c.p.waiters, c.p.count)
  }

  ghost predicate Separate(g: Geometry, h: Geometry) {
    g.start + g.size <= h.start || h.start + h.size <= g.start
  }

  ghost predicate Inv(w: World) {
    && (forall i :: i in w.pools ==> Healthy(w.mem, i, w.pools[i]))
    && (forall i, j :: i in w.pools && j in w.pools && i != j ==> Separate(w.pools[i].p.g, w.pools[j].p.g))
  }

  function Put(w: World, id: nat, mem: Memory, c: Account): World { World(mem, w.pools[id := c]) }

  lemma HealthyFrame(mem: Memory, mem': Memory, id: nat, c: Account, g: Geometry)
    requires Healthy(mem, id, c) && Separate(g, c.p.g)
    requires forall a :: a in mem && !Within(g, a) ==> a in mem' && mem'[a] == mem[a]
    ensures Healthy(mem', id, c)
  {
    var p := c.p;
    forall a | IsBlock(p.g, a) && a in mem ensures a in mem' && mem'[a] == mem[a] { BlockInside(p.g, a); }
    PartitionFrame(mem, mem', id, p.g, p.list, p.count, c.fs, c.used);
  }

  /** What one pool does inside its own area leaves the others alone. */
  lemma PutKeeps(w: World, id: nat, mem: Memory, c: Account)
    requires Inv(w) && Healthy(mem, id, c)
    requires forall j :: j in w.pools && j != id ==> Separate(c.p.g, w.pools[j].p.g)
    requires forall a :: a in w.mem && !Within(c.p.g, a) ==> a in mem && mem[a] == w.mem[a]
    ensures Inv(Put(w, id, mem, c))
  {
    forall j | j in w.pools && j != id ensures Healthy(mem, j, w.pools[j]) {
      HealthyFrame(w.mem, mem, j, w.pools[j], c.p.g);
    }
  }

  datatype Op =
    | DoInit(id: nat, start: nat, size: nat, blockSize: nat)
    | DoCreate(id: nat, start: nat, count: nat, blockSize: nat)
    | EnterAlloc(id: nat, t: Thread, time: int)
    | RetryAlloc(id: nat, t: Thread, time: int)
    | DoFree(id: nat, block: int)
    | DoWrite(id: nat, block: int, off: nat, v: int)
    | DoExpire(id: nat, t: Thread)

  /** The area given to a new pool is nobody else's, and at least one block fits. */
  ghost predicate Available(w: World, id: nat, g: Geometry) {
    && id !in w.pools && g.start > 0 && g.total > 0
    && (forall j :: j in w.pools ==> Separate(g, w.pools[j].p.g))
  }

  ghost predicate Handed(w: World, id: nat, block: int) {
    id in w.pools && block - WORD in w.pools[id].used
  }

  /** Callers free, and store words inside, what they were handed. */
  ghost predicate Enabled(w: World, op: Op) {
    match op
    case DoInit(id, start, size, blockSize) => Available(w, id, Carved(start, size, blockSize))
    case DoCreate(id, start, count, blockSize) => Available(w, id, Exact(start, count, blockSize))
    case EnterAlloc(id, t, _) => id in w.pools && forall j :: j in w.pools ==> t !in Members(w.pools[j].p.waiters)
    case RetryAlloc(id, t, _) => id in w.pools && t in w.pools[id].p.waiters.woken
    case DoFree(id, block) => Handed(w, id, block)
    case DoWrite(id, block, off, _) => Handed(w, id, block) && off + WORD <= w.pools[id].p.g.blockSize
    case DoExpire(id, t) => id in w.pools && t in w.pools[id].p.waiters.list
  }

  function Install(w: World, id: nat, g: Geometry): World {
    Put(w, id, Formatted(w.mem, g), Account(Pool(g, g.start, g.total, Side([], {})), AllBlocks(g), {}))
  }

  function AllocStep(w: World, id: nat, c: Account, t: Thread, time: int): World {
    var (mem, p, status, block) := Alloc(w.mem, id, c.p, t, time);
    Put(w, id, mem,
        if status == Ok && c.fs != [] then Account(p, c.fs[1..], c.used + {c.fs[0]}) else c.(p := p))
  }

  /** The pool is the one the header names. */
  function FreeStep(w: World, block: int): World {
    var id := Cell(w.mem, block - WORD);
    if block >= WORD && id in w.pools then
      var (mem, p) := Free(w.mem, w.pools[id].p, block);
      Put(w, id, mem, Account(p, [block - WORD] + w.pools[id].fs, w.pools[id].used - {block - WORD}))
    else w
  }

  /** A thread stores a word inside its block. */
  function WriteStep(w: World, block: int, off: nat, v: int): World {
    World(w.mem[block + off := v], w.pools)
  }

  function WithWaiters(c: Account, waiters: Side): Account { c.(p := c.p.(waiters := waiters)) }

  ghost function Step(w: World, op: Op): World
    requires Enabled(w, op)
  {
    match op
    case DoInit(id, start, size, blockSize) => Install(w, id, Carved(start, size, blockSize))
    case DoCreate(id, start, count, blockSize) => Install(w, id, Exact(start, count, blockSize))
    case EnterAlloc(id, t, time) => AllocStep(w, id, w.pools[id], t, time)
    case RetryAlloc(id, t, time) =>
      var c := w.pools[id];
      AllocStep(w, id, WithWaiters(c, Reenter(c.p.waiters, t)), t, time)
    case DoFree(_, block) => FreeStep(w, block)
    case DoWrite(_, block, off, v) => WriteStep(w, block, off, v)
    case DoExpire(id, t) =>
      var c := w.pools[id];
      Put(w, id, w.mem, WithWaiters(c, Leave(c.p.waiters, t)))
  }

  // ----- every step keeps every pool

  lemma InstallKeeps(w: World, id: nat, g: Geometry)
    requires Inv(w) && Available(w, id, g) && Fits(g)
    ensures Inv(Install(w, id, g))
  {
    InitPartition(w.mem, id, g);
    InitStaysInsideIff(g);
    PutKeeps(w, id, Formatted(w.mem, g), Account(Pool(g, g.start, g.total, Side([], {})), AllBlocks(g), {}));
  }

  lemma AllocHealthy(mem: Memory, id: nat, c: Account, t: Thread, time: int)
    requires Partition(mem, id, c.p.g, c.p.list, c.p.count, c.fs, c.used) && Proper(c.p.waiters)
    requires c.p.count > 0 && NoneLost(c.p.waiters, c.p.count - 1)
    ensures var (mem', p, status, block) := Alloc(mem, id, c.p, t, time);
            && status == Ok && c.fs != [] && block == c.fs[0] + WORD && IsBlock(c.p.g, c.fs[0])
            && mem' == mem[c.fs[0] := id] && Healthy(mem', id, Account(p, c.fs[1..], c.used + {c.fs[0]}))
  {
    AllocPartition(mem, id, c.p.g, c.p.list, c.p.count, c.fs, c.used);
    assert c.fs[0] in c.fs;
  }

  /** An allocation by a caller in no list, whose re-entry may have used up one wake-up. */
  lemma AllocKeeps(w: World, id: nat, c: Account, t: Thread, time: int)
    requires Inv(w) && id in w.pools && c == WithWaiters(w.pools[id], c.p.waiters)
    requires Proper(c.p.waiters) && t !in Members(c.p.waiters)
    requires NoneLost(c.p.waiters, c.p.count - 1) && (c.p.count == 0 ==> NoneLost(c.p.waiters, 0))
    ensures Inv(AllocStep(w, id, c, t, time))
  {
    var mem, p := Alloc(w.mem, id, c.p, t, time).0, Alloc(w.mem, id, c.p, t, time).1;
    if c.p.count == 0 {
      SleepFirstKeeps(c.p.waiters, t);
      PutKeeps(w, id, mem, c.(p := p));
    } else {
      AllocHealthy(w.mem, id, c, t, time);
      BlockInside(c.p.g, c.fs[0]);
      PutKeeps(w, id, mem, Account(p, c.fs[1..], c.used + {c.fs[0]}));
    }
  }

  lemma FreeHealthy(mem: Memory, id: nat, c: Account, block: int)
    requires Healthy(mem, id, c) && block - WORD in c.used
    ensures var (mem', p) := Free(mem, c.p, block);
            Healthy(mem', id, Account(p, [block - WORD] + c.fs, c.used - {block - WORD}))
  {
    FreePartition(mem, id, c.p.g, c.p.list, c.p.count, c.fs, c.used, block - WORD);
    WakeKeeps(c.p.waiters, c.p.count);
  }

  /** The header leads back to the pool the block came from, and the block joins its chain. */
  lemma FreeReturnsHome(w: World, id: nat, block: int)
    requires Inv(w) && Handed(w, id, block)
    ensures var w', c, a := FreeStep(w, block), w.pools[id], block - WORD;
            Inv(w') && w'.pools == w.pools[id := Account(Free(w.mem, c.p, block).1, [a] + c.fs, c.used - {a})]
  {
    var c, a := w.pools[id], block - WORD;
    assert w.mem[a] == id;
    FreeHealthy(w.mem, id, c, block);
    BlockInside(c.p.g, a);
    var (mem, p) := Free(w.mem, c.p, block);
    PutKeeps(w, id, mem, Account(p, [a] + c.fs, c.used - {a}));
  }

  /** A word written into a used payload leaves its pool alone. */
  lemma WriteHealthy(mem: Memory, id: nat, c: Account, block: int, off: nat, v: int)
    requires Healthy(mem, id, c) && block - WORD in c.used && off + WORD <= c.p.g.blockSize
    ensures Healthy(mem[block + off := v], id, c)
    ensures Within(c.p.g, block + off) && Within(c.p.g, block + off + WORD - 1)
  {
    var p, mem' := c.p, mem[block + off := v];
    forall b | IsBlock(p.g, b) && b in mem ensures mem'[b] == mem[b] {
      PayloadIsNoHeader(p.g, block - WORD, off + WORD, b);
    }
    PartitionFrame(mem, mem', id, p.g, p.list, p.count, c.fs, c.used);
    BlockInside(p.g, block - WORD);
  }

  lemma WriteKeeps(w: World, id: nat, block: int, off: nat, v: int)
    requires Inv(w) && Handed(w, id, block) && off + WORD <= w.pools[id].p.g.blockSize
    ensures Inv(WriteStep(w, block, off, v))
  {
    var mem := w.mem[block + off := v];
    WriteHealthy(w.mem, id, w.pools[id], block, off, v);
    forall i | i in w.pools && i != id ensures Healthy(mem, i, w.pools[i]) {
      HealthyFrame(w.mem, mem, i, w.pools[i], w.pools[id].p.g);
    }
  }

  lemma ExpireKeeps(w: World, id: nat, t: Thread)
    requires Inv(w) && Enabled(w, DoExpire(id, t))
    ensures Inv(Step(w, DoExpire(id, t)))
  {
    var c := w.pools[id];
    LeaveKeeps(c.p.waiters, t, c.p.count);
    PutKeeps(w, id, w.mem, WithWaiters(c, Leave(c.p.waiters, t)));
  }

  lemma StepKeepsInv(w: World, op: Op)
    requires Inv(w) && Enabled(w, op)
    ensures Inv(Step(w, op))
  {
    match op
    case DoInit(id, start, size, blockSize) =>
      CarvedFits(start, size, blockSize);
      InstallKeeps(w, id, Carved(start, size, blockSize));
    case DoCreate(id, start, count, blockSize) => InstallKeeps(w, id, Exact(start, count, blockSize));
    case EnterAlloc(id, t, time) => AllocKeeps(w, id, w.pools[id], t, time);
    case RetryAlloc(id, t, time) =>
      var c := w.pools[id];
      ReenterKeeps(c.p.waiters, t, c.p.count);
      AllocKeeps(w, id, WithWaiters(c, Reenter(c.p.waiters, t)), t, time);
    case DoFree(id, block) => FreeReturnsHome(w, id, block);
    case DoWrite(id, block, off, v) => WriteKeeps(w, id, block, off, v);
    case DoExpire(id, t) => ExpireKeeps(w, id, t);
  }

  /** A run starts before any pool exists. */
  ghost predicate IsRun(trace: seq<World>, ops: seq<Op>) {
    && |trace| == |ops| + 1 && trace[0] == World(trace[0].mem, map[])
    && forall i :: 0 <= i < |ops| ==> Enabled(trace[i], ops[i]) && trace[i + 1] == Step(trace[i], ops[i])
  }

  /**
   * Over every run of several pools, with writes into allocated payloads: each block is in
   * exactly one of the free chain and the used blocks, the chain is acyclic, null-terminated
   * and as long as `block_free_count`, used headers name their pool, no wake-up is lost.
   */
  lemma {:induction false} RunKeepsInv(trace: seq<World>, ops: seq<Op>, k: nat)
    requires IsRun(trace, ops) && k < |trace|
    ensures Inv(trace[k])
  {
    if k > 0 {
      RunKeepsInv(trace, ops, k - 1);
      StepKeepsInv(trace[k - 1], ops[k - 1]);
    }
  }

  /** Two handed-out blocks never overlap, in the same pool or not. */
  lemma HandedDisjoint(w: World, i: nat, a: int, j: nat, b: int)
    requires Inv(w) && Handed(w, i, a) && Handed(w, j, b) && a != b
    ensures a + w.pools[i].p.g.blockSize <= b - WORD || b + w.pools[j].p.g.blockSize <= a - WORD
  {
    var g, h := w.pools[i].p.g, w.pools[j].p.g;
    BlockInside(g, a - WORD);
    BlockInside(h, b - WORD);
    if i == j { BlocksDisjoint(g, a - WORD, b - WORD); }
  }

  // ----- what a call answers

  /** A block is handed out exactly when one is free; the caller times out or sleeps, in front, exactly when none is. */
  lemma AllocLaw(mem: Memory, id: nat, c: Account, t: Thread, time: int)
    requires Healthy(mem, id, c)
    ensures var (mem', p, status, block) := Alloc(mem, id, c.p, t, time);
            && (status == Ok <==> c.fs != [])
            && (status == TimedOut <==> c.fs == [] && time == 0)
            && (status == Blocked <==> c.fs == [] && time != 0)
            && (status == Ok ==>
                  && block == c.fs[0] + WORD && mem' == mem[c.fs[0] := id] && p.waiters == c.p.waiters
                  && Partition(mem', id, p.g, p.list, p.count, c.fs[1..], c.used + {c.fs[0]}))
            && (status != Ok ==> mem' == mem && block == NULL)
            && (status == TimedOut ==> p == c.p)
            && (status == Blocked ==>
                  p == c.p.(waiters := p.waiters) && p.waiters == Side([t] + c.p.waiters.list, c.p.waiters.woken))
  {
    if c.fs != [] { AllocPartition(mem, id, c.p.g, c.p.list, c.p.count, c.fs, c.used); }
  }

  /** A block given back is the next to be handed out, and the first sleeper, the latest to come, is woken for it. */
  lemma FreeLaw(mem: Memory, id: nat, c: Account, block: int, t: Thread, time: int)
    requires Healthy(mem, id, c) && block - WORD in c.used
    ensures var (mem', p) := Free(mem, c.p, block);
            && Woken(c.p.waiters, p.waiters) && p.count == c.p.count + 1
            && Alloc(mem', id, p, t, time).2 == Ok && Alloc(mem', id, p, t, time).3 == block
            && Alloc(mem', id, p, t, time).1.count == c.p.count && Alloc(mem', id, p, t, time).1.list == c.p.list
  {
    WakeLaw(c.p.waiters);
  }

  // ----- the objects

  /** The words of memory. */
  class Ram {
    var cells: Memory

    constructor (cells: Memory)
      ensures this.cells == cells
    {
      this.cells := cells;
    }
  }

  /** A pool's control block; `id` is its address. */
  class PoolObject {
    const id: nat
    const g: Geometry
    var list: int
    var count: nat
    var suspended: seq<Thread>
    ghost var woken: set<Thread>

    ghost function View(): Pool
      reads this
    {
      Pool(g, list, count, Side(suspended, woken))
    }

    /** `rt_mp_init` and `rt_mp_create` once the geometry is known: thread the free list through the headers. */
    constructor (ram: Ram, id: nat, g: Geometry)
      requires Fits(g) && g.total > 0
      modifies ram
      ensures this.id == id && View() == Pool(g, g.start, g.total, Side([], {}))
      ensures ram.cells == Formatted(old(ram.cells), g)
    {
      this.id, this.g := id, g;
      list, count, suspended, woken := g.start, g.total, [], {};
      new;
      ghost var before := ram.cells;
      for offset := 0 to g.total
        invariant ram.cells == Threaded(before, g, offset)
        modifies ram
      {
        ram.cells := ram.cells[BlockAt(g, offset) := BlockAt(g, offset + 1)];
      }
      ram.cells := ram.cells[BlockAt(g, g.total - 1) := NULL];
    }

    /** The critical section of `rt_mp_alloc`, from the loop test on; `RT_ASSERT(block_ptr != RT_NULL)` holds. */
    method AllocSection(ram: Ram, thread: Thread, time: int, ghost fs: seq<nat>, ghost used: set<nat>)
        returns (status: Status, block: int)
      requires Partition(ram.cells, id, g, list, count, fs, used)
      modifies this, ram
      ensures (ram.cells, View(), status, block) == Alloc(old(ram.cells), id, old(View()), thread, time)
      ensures status == Ok ==> fs != [] && block == fs[0] + WORD &&
                               Partition(ram.cells, id, g, list, count, fs[1..], used + {fs[0]})
    {
      if count == 0 {
        if time == 0 { return TimedOut, NULL; }
        suspended := [thread] + suspended;
        return Blocked, NULL;
      }
      AllocPartition(ram.cells, id, g, list, count, fs, used);
      count := count - 1;
      var blockPtr := list;
      assert blockPtr != NULL;
      list := ram.cells[blockPtr];
      ram.cells := ram.cells[blockPtr := id];
      return Ok, blockPtr + WORD;
    }
  }

  /** `rt_mp_free`: the header says which control block to use. */
  method FreeBlock(ram: Ram, objects: map<int, PoolObject>, block: int, ghost fs: seq<nat>, ghost used: set<nat>)
    requires block != NULL ==> block - WORD in ram.cells && ram.cells[block - WORD] in objects
    requires block != NULL ==> var mp := objects[ram.cells[block - WORD]];
               Partition(ram.cells, mp.id, mp.g, mp.list, mp.count, fs, used) && block - WORD in used
    modifies ram, objects.Values
    ensures block == NULL ==> ram.cells == old(ram.cells) && forall o :: o in objects.Values ==> o.View() == old(o.View())
    ensures block != NULL ==> var mp := objects[old(ram.cells)[block - WORD]];
              && (ram.cells, mp.View()) == Free(old(ram.cells), old(mp.View()), block)
              && Partition(ram.cells, mp.id, mp.g, mp.list, mp.count, [block - WORD] + fs, used - {block - WORD})
              && forall o :: o in objects.Values && o != mp ==> o.View() == old(o.View())
  {
    if block == NULL { return; }
    var blockPtr := block - WORD;
    var mp := objects[ram.cells[blockPtr]];
    FreePartition(ram.cells, mp.id, mp.g, mp.list, mp.count, fs, used, blockPtr);
    mp.count := mp.count + 1;
    ram.cells := ram.cells[blockPtr := mp.list];
    mp.list := blockPtr;
    if mp.suspended != [] {
      mp.woken := mp.woken + {mp.suspended[0]};
      mp.suspended := mp.suspended[1..];
    }
  }
}
