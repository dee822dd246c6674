/**
  A chain of bounded down-counters ("places").

  Every place holds a value and a radix. Place `i` of a chain is chained to
  place `i + 1` (the next, more significant place); the last place of the
  chain has no next place. This covers both shapes of the program: the
  pointer-linked `DownCounter` whose `next_` may be null, and the
  `BaseDownCounter` (no next) / `ChainableDownCounter` (has next) pair.

  Read as a mixed-radix number, a well-formed chain is a saturating
  down-counter: every `Step` on a counting chain lowers its composite value
  by exactly one, and a chain whose value is zero never changes.
 */
module DownCounter {

  datatype Place = Place(value: int, radix: int)

  /** Every place is within its radix, and every radix is positive. */
  ghost predicate WellFormed(c: seq<Place>) {
    forall j :: 0 <= j < |c| ==> 0 < c[j].radix && 0 <= c[j].value < c[j].radix
  }

  function Min(a: int, b: int): int {
    if a <= b then a else b
  }

  /** `set`: values at or above the radix are clamped to radix - 1. */
  function Set(p: Place, v: int): (r: Place)
    ensures r.radix == p.radix
    ensures r.value == Min(v, p.radix - 1)
    ensures 0 <= v && 0 < p.radix ==> 0 <= r.value < r.radix
  {
    Place(if v >= p.radix then p.radix - 1 else v, p.radix)
  }

  /** `set` on place `i` of a chain: no other place changes (no cascade). */
  function SetAt(c: seq<Place>, i: nat, v: int): (r: seq<Place>)
    requires i < |c|
    ensures |r| == |c|
    ensures r[i].value == Min(v, c[i].radix - 1)
    ensures r[i].radix == c[i].radix
    ensures forall j :: 0 <= j < |c| && j != i ==> r[j] == c[j]
    ensures WellFormed(c) && 0 <= v ==> WellFormed(r)
  {
    c[i := Set(c[i], v)]
  }

  /** `is_counting`: this place or some more significant place is non-zero. */
  function IsCounting(c: seq<Place>, i: nat): (r: bool)
    requires i < |c|
    ensures r <==> exists j :: i <= j < |c| && c[j].value != 0
    decreases |c| - i
  {
    c[i].value != 0 || (i + 1 < |c| && IsCounting(c, i + 1))
  }

  /**
    `step` of place `i`: decrement a positive place; at zero, borrow from a
    counting next place (which is stepped once) and wrap to radix - 1;
    otherwise do nothing.
   */
  function Step(c: seq<Place>, i: nat): (r: seq<Place>)
    requires i < |c|
    ensures |r| == |c|
    ensures forall j :: 0 <= j < i ==> r[j] == c[j]
    ensures forall j :: 0 <= j < |c| ==> r[j].radix == c[j].radix
    ensures WellFormed(c) ==> WellFormed(r)
    decreases |c| - i
  {
    if c[i].value > 0 then
      c[i := c[i].(value := c[i].value - 1)]
    else if i + 1 < |c| && IsCounting(c, i + 1) then
      Step(c, i + 1)[i := c[i].(value := c[i].radix - 1)]
    else
      c
  }

  /** The composite value of the chain from place `i` upwards. */
  function Value(c: seq<Place>, i: nat): int
    decreases |c| - i
  {
    if i >= |c| then 0 else c[i].value + c[i].radix * Value(c, i + 1)
  }

  lemma {:induction false} ValueNonNegative(c: seq<Place>, i: nat)
    requires WellFormed(c)
    ensures Value(c, i) >= 0
    decreases |c| - i
  {
    if i < |c| {
      ValueNonNegative(c, i + 1);
      assert c[i].radix * Value(c, i + 1) >= 0;
    }
  }

  /** The value from place `i` upwards depends only on those places. */
  lemma {:induction false} ValueOfSuffix(c: seq<Place>, d: seq<Place>, i: nat)
    requires |c| == |d|
    requires forall j :: i <= j < |c| ==> c[j] == d[j]
    ensures Value(c, i) == Value(d, i)
    decreases |c| - i
  {
    if i < |c| {
      ValueOfSuffix(c, d, i + 1);
    }
  }

  /** On a well-formed chain, a place counts exactly when the value above it is positive. */
  lemma {:induction false} CountingIffPositive(c: seq<Place>, i: nat)
    requires WellFormed(c)
    requires i < |c|
    ensures IsCounting(c, i) <==> Value(c, i) > 0
    decreases |c| - i
  {
    ValueNonNegative(c, i + 1);
    if i + 1 < |c| {
      CountingIffPositive(c, i + 1);
    }
    if Value(c, i + 1) > 0 {
      assert c[i].radix * Value(c, i + 1) >= c[i].radix;
    }
  }

  /** A step that borrows: place `i` wraps to radix - 1 while the places above lose one. */
  lemma StepBorrowValue(c: seq<Place>, i: nat)
    requires i + 1 < |c| && c[i].value == 0 && IsCounting(c, i + 1)
    requires Value(Step(c, i + 1), i + 1) == Value(c, i + 1) - 1
    ensures Value(Step(c, i), i) == Value(c, i) - 1
  {
    var s := Step(c, i + 1);
    var r := Step(c, i);
    var k, v := c[i].radix, Value(c, i + 1);
    assert r == s[i := c[i].(value := k - 1)];
    ValueOfSuffix(r, s, i + 1);
    assert Value(r, i + 1) == v - 1;
    assert Value(r, i) == (k - 1) + k * Value(r, i + 1);
    assert Value(c, i) == k * v;
    assert (k - 1) + k * (v - 1) == k * v - 1;
  }

  /**
    The central invariant: one `step` lowers the composite value by exactly
    one while it is positive, and leaves an exhausted chain untouched.
   */
  lemma {:induction false} StepLowersValue(c: seq<Place>, i: nat)
    requires WellFormed(c)
    requires i < |c|
    ensures Value(c, i) > 0 ==> Value(Step(c, i), i) == Value(c, i) - 1
    ensures Value(c, i) == 0 ==> Step(c, i) == c
    decreases |c| - i
  {
    ValueNonNegative(c, i + 1);
    if c[i].value > 0 {
      ValueOfSuffix(Step(c, i), c, i + 1);
    } else if i + 1 < |c| && IsCounting(c, i + 1) {
      CountingIffPositive(c, i + 1);
      StepLowersValue(c, i + 1);
      StepBorrowValue(c, i);
    } else {
      if i + 1 < |c| {
        CountingIffPositive(c, i + 1);
      }
      assert Value(c, i + 1) == 0;
    }
  }

  /** The chain after `k` steps of place 0. */
  function Steps(c: seq<Place>, k: nat): (r: seq<Place>)
    requires |c| > 0
    ensures |r| == |c|
    ensures WellFormed(c) ==> WellFormed(r)
  {
    if k == 0 then c else Step(Steps(c, k - 1), 0)
  }

  /** `k` steps lower the composite value by `k`, saturating at zero. */
  lemma {:induction false} StepsLowerValue(c: seq<Place>, k: nat)
    requires WellFormed(c) && |c| > 0
    ensures Value(Steps(c, k), 0) == if Value(c, 0) >= k then Value(c, 0) - k else 0
  {
    ValueNonNegative(c, 0);
    if k > 0 {
      StepsLowerValue(c, k - 1);
      StepLowersValue(Steps(c, k - 1), 0);
    }
  }

  /**
    The single-stage test: an unchained place of radix 5 does not count at 0;
    set to 3 it counts down to 0 and then saturates; set to 7 it clamps to 4.
   */
  lemma SingleStageTest()
    ensures !IsCounting([Place(0, 5)], 0)
    ensures var c := SetAt([Place(0, 5)], 0, 3);
            && c == [Place(3, 5)] && IsCounting(c, 0)
            && Steps(c, 1) == [Place(2, 5)] && IsCounting(Steps(c, 1), 0)
            && Steps(c, 2) == [Place(1, 5)] && IsCounting(Steps(c, 2), 0)
            && Steps(c, 3) == [Place(0, 5)] && !IsCounting(Steps(c, 3), 0)
            && Steps(c, 4) == [Place(0, 5)] && !IsCounting(Steps(c, 4), 0)
    ensures SetAt([Place(0, 5)], 0, 7) == [Place(4, 5)] && IsCounting([Place(4, 5)], 0)
  {
  }

  /**
    The double-stage test: place 0 (radix 2) chained to place 1 (radix 5,
    set to 3) walks the composite value 6 down to 0 and stays there.
   */
  lemma DoubleStageTest()
    ensures var c := SetAt([Place(0, 2), Place(0, 5)], 1, 3);
            && c == [Place(0, 2), Place(3, 5)]
            && Steps(c, 1) == [Place(1, 2), Place(2, 5)]
            && Steps(c, 2) == [Place(0, 2), Place(2, 5)]
            && Steps(c, 3) == [Place(1, 2), Place(1, 5)]
            && Steps(c, 4) == [Place(0, 2), Place(1, 5)]
            && Steps(c, 5) == [Place(1, 2), Place(0, 5)]
            && Steps(c, 6) == [Place(0, 2), Place(0, 5)]
            && Steps(c, 7) == [Place(0, 2), Place(0, 5)]
  {
    var c := SetAt([Place(0, 2), Place(0, 5)], 1, 3);
    assert c == [Place(0, 2), Place(3, 5)];
    assert Step(c, 1) == [Place(0, 2), Place(2, 5)];
    assert Steps(c, 1) == [Place(1, 2), Place(2, 5)];
    assert Steps(c, 2) == [Place(0, 2), Place(2, 5)];
    assert Step(Steps(c, 2), 1) == [Place(0, 2), Place(1, 5)];
    assert Steps(c, 3) == [Place(1, 2), Place(1, 5)];
    assert Steps(c, 4) == [Place(0, 2), Place(1, 5)];
    assert Step(Steps(c, 4), 1) == [Place(0, 2), Place(0, 5)];
    assert Steps(c, 5) == [Place(1, 2), Place(0, 5)];
    assert Steps(c, 6) == [Place(0, 2), Place(0, 5)];
  }

  /**
    The triple-stage test: three places of radix 2, each set to 1, walk the
    composite value 7 down to 0 and stay there.
   */
  lemma TripleStageTest()
    ensures var z, o := Place(0, 2), Place(1, 2);
            var c := SetAt(SetAt(SetAt([z, z, z], 2, 1), 1, 1), 0, 1);
            && c == [o, o, o]
            && Steps(c, 1) == [z, o, o]
            && Steps(c, 2) == [o, z, o]
            && Steps(c, 3) == [z, z, o]
            && Steps(c, 4) == [o, o, z]
            && Steps(c, 5) == [z, o, z]
            && Steps(c, 6) == [o, z, z]
            && Steps(c, 7) == [z, z, z]
            && Steps(c, 8) == [z, z, z]
  {
    var z, o := Place(0, 2), Place(1, 2);
    var c := SetAt(SetAt(SetAt([z, z, z], 2, 1), 1, 1), 0, 1);
    assert c == [o, o, o];
    assert Steps(c, 1) == [z, o, o];
    assert Step([z, o, o], 1) == [z, z, o];
    assert Steps(c, 2) == [o, z, o];
    assert Steps(c, 3) == [z, z, o];
    assert Step([z, z, o], 2) == [z, z, z];
    assert Step([z, z, o], 1) == [z, o, z];
    assert Steps(c, 4) == [o, o, z];
    assert Steps(c, 5) == [z, o, z];
    assert Step([z, o, z], 1) == [z, z, z];
    assert Steps(c, 6) == [o, z, z];
    assert Steps(c, 7) == [z, z, z];
    assert Steps(c, 8) == [z, z, z];
  }
}
