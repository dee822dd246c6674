/**
  The chained clock: three down-counter places, tenths (radix 10) chained
  to seconds (radix 60) chained to minutes (radix 1000, no next place).

  `Set` decomposes a total of tenths with `%` and `/`; `Running` ("operator
  bool") and `Tick` ("operator--") delegate to the tenths place, whose
  `is_counting` and `step` cascade through the chain; `TickBy` is
  `operator-=`. Every well-formed clock holds a total below 600000 tenths,
  and on those the chained clock behaves exactly like the integer clock.
 */
module ChainedClock {
  import opened DownCounter
  import IntClock

  const TenthsRadix := 10
  const SecondsRadix := 60
  const MinutesRadix := 1000

  /** Largest total the three places can hold: 999:59.9. */
  const Capacity := TenthsRadix * SecondsRadix * MinutesRadix

  datatype Clock = Clock(places: seq<Place>) {
    /** The place values for display: minutes, seconds, tenths. */
    function Display(): (int, int, int)
      requires |places| == 3
    {
      (places[2].value, places[1].value, places[0].value)
    }
  }

  /** Three places with the clock's radices, each within its radix. */
  ghost predicate Valid(c: Clock) {
    && |c.places| == 3
    && c.places[0].radix == TenthsRadix
    && c.places[1].radix == SecondsRadix
    && c.places[2].radix == MinutesRadix
    && WellFormed(c.places)
  }

  /** The clock's time left, in tenths of a second. */
  function Total(c: Clock): int {
    Value(c.places, 0)
  }

  /** The default-constructed clock: every place at zero. */
  function Zero(): (c: Clock)
    ensures Valid(c) && Total(c) == 0
  {
    var c := Clock([Place(0, TenthsRadix), Place(0, SecondsRadix), Place(0, MinutesRadix)]);
    TotalOfPlaces(c);
    c
  }

  lemma TotalOfPlaces(c: Clock)
    requires Valid(c)
    ensures Total(c) == c.places[0].value + 10 * c.places[1].value + 600 * c.places[2].value
    ensures 0 <= Total(c) < Capacity
  {
    var p := c.places;
    assert Value(p, 2) == p[2].value + 1000 * Value(p, 3);
    assert Value(p, 1) == p[1].value + 60 * Value(p, 2);
    assert Value(p, 0) == p[0].value + 10 * Value(p, 1);
  }

  /**
    `set(ts)`: tenths get `ts % 10`, seconds `(ts / 10) % 60`, minutes
    `ts / 10 / 60`, the last clamped to 999 by its radix. Below the capacity
    the clock then holds exactly `ts`; above it the minutes saturate.
   */
  function Set(c: Clock, ts: int): (r: Clock)
    requires Valid(c)
    requires ts >= 0
    ensures Valid(r)
    ensures ts < Capacity ==> Total(r) == ts
    ensures ts >= Capacity ==> Total(r) == (MinutesRadix - 1) * 600 + ts % 600
  {
    var p := SetAt(c.places, 0, ts % 10);
    var p := SetAt(p, 1, (ts / 10) % 60);
    var p := SetAt(p, 2, ts / 10 / 60);
    var r := Clock(p);
    TotalOfPlaces(r);
    assert ts / 10 / 60 == ts / 600;
    assert ts == ts % 10 + 10 * ((ts / 10) % 60) + 600 * (ts / 600);
    r
  }

  /** `operator bool`: the tenths place is counting. */
  function Running(c: Clock): (b: bool)
    requires Valid(c)
    ensures b <==> Total(c) > 0
  {
    CountingIffPositive(c.places, 0);
    IsCounting(c.places, 0)
  }

  /** `operator--`: step the tenths place; one tenth elapses while time is left. */
  function Tick(c: Clock): (r: Clock)
    requires Valid(c)
    ensures Valid(r)
    ensures Total(c) > 0 ==> Total(r) == Total(c) - 1
    ensures Total(c) == 0 ==> r == c
  {
    StepLowersValue(c.places, 0);
    Clock(Step(c.places, 0))
  }

  /**
    `operator-=(n)`: apply up to `n` ticks, giving up with false once the
    clock is no longer running. The result is true iff the clock held at
    least `n` tenths, and the total ends at `max(0, total - n)`.
   */
  function TickBy(c: Clock, n: int): (r: (bool, Clock))
    requires Valid(c)
    ensures Valid(r.1)
    ensures r.0 <==> Total(c) >= n
    ensures Total(r.1) == if n <= 0 then Total(c) else IntClock.Max(0, Total(c) - n)
    decreases n
  {
    TotalOfPlaces(c);
    if n <= 0 then (true, c)
    else if !Running(c) then (false, c)
    else TickBy(Tick(c), n - 1)
  }

  /** The integer clock a chained clock stands for. */
  function Abs(c: Clock): IntClock.Clock {
    IntClock.Clock(Total(c))
  }

  /** Below the capacity, setting the chained clock sets the integer clock. */
  lemma SetRefines(c: Clock, ts: int)
    requires Valid(c) && 0 <= ts < Capacity
    ensures Abs(Set(c, ts)) == IntClock.Set(ts)
  {
  }

  /** `operator bool` and `operator--` agree with the integer clock. */
  lemma TickRefines(c: Clock)
    requires Valid(c)
    ensures Running(c) == IntClock.Running(Abs(c))
    ensures Abs(Tick(c)) == IntClock.Dec(Abs(c))
  {
    TotalOfPlaces(c);
  }

  /** `operator-=` agrees with the integer clock's `operator-=`. */
  lemma {:induction false} TickByRefines(c: Clock, n: int)
    requires Valid(c)
    ensures TickBy(c, n).0 == IntClock.CountDown(Abs(c), n).0
    ensures Abs(TickBy(c, n).1) == IntClock.CountDown(Abs(c), n).1
  {
    TotalOfPlaces(c);
  }

  /**
    Two concrete runs: `set(1201)` holds 2 minutes, 0 seconds and 1 tenth
    (shown as `  2:00.1`), and a clock set to 5 tenths that is asked for 10
    ticks reports false and stops running.
   */
  lemma SetAndTickByExamples()
    ensures Set(Zero(), 1201).Display() == (2, 0, 1) && Total(Set(Zero(), 1201)) == 1201
    ensures var r := TickBy(Set(Zero(), 5), 10); !r.0 && !Running(r.1)
  {
  }
}
