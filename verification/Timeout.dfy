/**
 * The remaining-timeout arithmetic of the blocking calls: a woken thread takes the
 * 32-bit tick difference off its signed timeout, and a negative rest counts as 0.
 */
module Timeout {
  import opened Words

  const HALF := 0x8000_0000

  /** `rt_tick_get` wraps at 2^32. */
  function Tick(time: nat): nat { time % UINT32 }

  /** Unsigned 32-bit subtraction. */
  function Sub32(a: nat, b: nat): nat
    requires a < UINT32 && b < UINT32
  {
    (a + UINT32 - b) % UINT32
  }

  /** The signed value of a 32-bit pattern. */
  function Signed(u: nat): int
    requires u < UINT32
  {
    if u < HALF then u else u - UINT32
  }

  /** What the code computes after a sleep that began at tick `before` and ended at tick `now`. */
  function Remaining(timeout: int, before: nat, now: nat): int
    requires 0 <= timeout < HALF && before < UINT32 && now < UINT32
  {
    if timeout > 0 then
      var delta := Sub32(now, before);
      var left := Signed(Sub32(timeout, delta));
      if left < 0 then 0 else left
    else timeout
  }

  function Max0(x: int): nat { if x < 0 then 0 else x }

  /** The tick difference is the time slept, across the wrap, when that is below 2^32. */
  lemma DeltaIsElapsed(start: nat, slept: nat)
    requires slept < UINT32
    ensures Sub32(Tick(start + slept), Tick(start)) == slept
  {
    var a := start % UINT32;
    assert (start + slept) % UINT32 == (a + slept) % UINT32;
    if a + slept < UINT32 {
      assert (a + slept) % UINT32 == a + slept;
    } else {
      assert (a + slept) % UINT32 == a + slept - UINT32;
    }
  }

  /** One round is exact if and only if the sleep was at most `timeout + 2^31` ticks. */
  lemma RoundIsExactIff(timeout: int, start: nat, slept: nat)
    requires 0 < timeout < HALF && slept < UINT32
    ensures Remaining(timeout, Tick(start), Tick(start + slept)) == Max0(timeout - slept) <==> slept <= timeout + HALF
  {
    DeltaIsElapsed(start, slept);
    if slept <= timeout {
      assert Sub32(timeout, slept) == timeout - slept;
    } else {
      assert Sub32(timeout, slept) == timeout + UINT32 - slept;
    }
  }

  function Sum(sleeps: seq<nat>): nat {
    if sleeps == [] then 0 else Sum(sleeps[..|sleeps| - 1]) + sleeps[|sleeps| - 1]
  }

  /**
   * The retry loop of `rt_mb_send_wait`, `rt_mb_recv`, `rt_mq_send_wait`,
   * `rt_mq_recv` and `rt_mp_alloc`: each round sleeps and then recomputes what is left.
   */
  method RetryRounds(timeout: int, starts: seq<nat>, sleeps: seq<nat>) returns (left: int)
    requires 0 <= timeout < HALF && |starts| == |sleeps|
    requires forall i :: 0 <= i < |sleeps| ==> sleeps[i] < HALF
    ensures left == Max0(timeout - Sum(sleeps))
  {
    left := timeout;
    for i := 0 to |sleeps|
      invariant left == Max0(timeout - Sum(sleeps[..i]))
    {
      assert sleeps[..i + 1][..i] == sleeps[..i];
      if left > 0 { RoundIsExactIff(left, starts[i], sleeps[i]); }
      left := Remaining(left, Tick(starts[i]), Tick(starts[i] + sleeps[i]));
    }
    assert sleeps[..|sleeps|] == sleeps;
  }

  /** A finite timeout never becomes RT_WAITING_FOREVER, whatever the ticks. */
  lemma NeverForever(timeout: int, before: nat, now: nat)
    requires 0 <= timeout < HALF && before < UINT32 && now < UINT32
    ensures 0 <= Remaining(timeout, before, now) < HALF
  {
  }

  /** The bound is sharp: one tick more, and a sleep past the end of its timeout leaves almost 2^31 ticks. */
  lemma LongSleepFails()
    ensures Remaining(1, Tick(0), Tick(1 + HALF)) == Max0(1 - (1 + HALF))
    ensures Remaining(1, Tick(0), Tick(2 + HALF)) == HALF - 1 && Max0(1 - (2 + HALF)) == 0
  {
    DeltaIsElapsed(0, 1 + HALF);
    DeltaIsElapsed(0, 2 + HALF);
  }
}
