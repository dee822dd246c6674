/**
  The integer clock: a single count of tenths of a second.

  `Set`/`Get` store and return the count verbatim; `Running` ("operator
  bool") means time is left; `Dec` ("operator--") never goes below zero;
  `CountDown` is the free function `countClockDown` and the member
  `operator-=`, which apply up to `n` ticks and report whether the clock
  still had time before each of them. `CountDownByGet` is the earlier
  variant of `countClockDown` written with `get`/`set` and a test for zero.
 */
module IntClock {

  datatype Clock = Clock(tenthSeconds: int)

  function Max(a: int, b: int): int {
    if a >= b then a else b
  }

  /** `set` stores its argument and `get` returns it unchanged. */
  function Set(ts: int): (c: Clock)
    ensures Get(c) == ts
  {
    Clock(ts)
  }

  function Get(c: Clock): int {
    c.tenthSeconds
  }

  /** `operator bool`: time is left, so a tick would still change the clock. */
  function Running(c: Clock): (b: bool)
    ensures b <==> Dec(c) != c
  {
    c.tenthSeconds > 0
  }

  /** `operator--`: one tick, saturating at zero. */
  function Dec(c: Clock): (r: Clock)
    ensures c.tenthSeconds >= 0 ==> r.tenthSeconds == Max(0, c.tenthSeconds - 1)
    ensures c.tenthSeconds < 0 ==> r == c
  {
    if c.tenthSeconds > 0 then Clock(c.tenthSeconds - 1) else c
  }

  /**
    `countClockDown(clk, n)` / `clk -= n`: before each of the `n` ticks the
    clock must still be running, otherwise the result is false and the
    remaining ticks are dropped. For a non-negative start `v` it reports
    `v >= n` and leaves `max(0, v - n)`.
   */
  function CountDown(c: Clock, n: int): (r: (bool, Clock))
    ensures c.tenthSeconds >= 0 ==>
              && (r.0 <==> c.tenthSeconds >= n)
              && r.1.tenthSeconds == (if n <= 0 then c.tenthSeconds else Max(0, c.tenthSeconds - n))
    ensures c.tenthSeconds < 0 ==> (r.0 <==> n <= 0) && r.1 == c
    decreases n
  {
    if n <= 0 then (true, c)
    else if !Running(c) then (false, c)
    else CountDown(Dec(c), n - 1)
  }

  /**
    The `get`/`set` form of `countClockDown`: it stops only when the count
    is exactly zero, so a negative start keeps being decremented.
   */
  method CountDownByGet(clk: Clock, steps: int) returns (ok: bool, res: Clock)
    ensures clk.tenthSeconds >= 0 ==>
              && (ok <==> clk.tenthSeconds >= steps)
              && res.tenthSeconds == (if steps <= 0 then clk.tenthSeconds else Max(0, clk.tenthSeconds - steps))
    ensures clk.tenthSeconds < 0 ==>
              ok && res.tenthSeconds == (if steps <= 0 then clk.tenthSeconds else clk.tenthSeconds - steps)
  {
    var c := clk;
    var n := steps;
    while n > 0
      invariant steps > 0 ==> 0 <= n <= steps && c.tenthSeconds == clk.tenthSeconds - (steps - n)
      invariant steps <= 0 ==> n == steps && c == clk
      invariant clk.tenthSeconds >= 0 ==> c.tenthSeconds >= 0
      decreases n
    {
      if Get(c) == 0 {
        return false, c;
      }
      c := Set(Get(c) - 1);
      n := n - 1;
    }
    return true, c;
  }
}
