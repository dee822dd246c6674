/**
  The command dispatch of `runChessClock`, shared by every variant.

  A command is first checked against the current `GameState` (its guard);
  a failing guard leaves everything unchanged. What a passing command does
  is described by an `Action`; the machines that own the two clocks
  (`IntegerMachine`, `ChainedMachine`) carry the action out.

  The variants differ in two places modelled here: the guard of the pause,
  continue and switch commands (written with a precedence slip in one
  variant) and the ladder that maps a digit to a number of ticks (absent,
  cumulative fallthrough, or first-assignment-wins).
 */
module GameControl {

  datatype GameState =
    | Initial | Startable
    | WhitePaused | BlackPaused
    | WhiteDraw | BlackDraw
    | WhiteWins | BlackWins

  datatype Side = White | Black

  type Digit = d: int | 0 <= d <= 9

  /**
    The commands: `r`, `s`, `p`, `c`, `x`, a digit, `?` (and every other
    letter, which no case of the switch handles) and `.`.
   */
  datatype Command =
    | Reset | Start | Pause | Continue | Switch
    | Advance(digit: Digit)
    | Help
    | Quit

  /** How the pause/continue/switch guards are written. */
  datatype Guards =
    | Grouped     // `not (s == Black... || s == White...)`
    | Ungrouped   // `not (s == Black...) || (s == White...)`

  /** How a digit selects its number of ticks. */
  datatype Ladder =
    | NoTicks          // digits are read but never tick a clock
    | Cumulative       // `ticks += k; [[fallthrough]]` from the digit down to '1'
    | FirstAssignment  // `ticks || (ticks = k)` from the digit down to '1'

  datatype Variant = Variant(guards: Guards, ladder: Ladder)

  /** Solution/Step_03.cpp */
  const Step03 := Variant(Ungrouped, NoTicks)
  /** Solution/Step_04.cpp and Prepared/Step_04-07.cpp */
  const Step04 := Variant(Grouped, NoTicks)
  /** Solution/Step_07.cpp, and the dispatch of Prepared/Step_08.cpp and Prepared/Step_09.cpp */
  const Step07 := Variant(Grouped, Cumulative)
  /** The dispatch of Solution/Step_10.cpp */
  const Step10 := Variant(Grouped, FirstAssignment)

  /** 30 minutes in tenths of a second. */
  const InitialTime := 30 * 60 * 10

  /** The two clocks and the state the game is in. */
  datatype Board<C> = Board(state: GameState, white: C, black: C)

  datatype Action =
    | Ignore                         // guard failed, or nothing to do
    | Halt                           // leave the command loop
    | Goto(next: GameState)          // change the state, clocks untouched
    | ResetClocks                    // both clocks to InitialTime, then Startable
    | Tick(side: Side, ticks: int)   // run this side's clock; expiry lets the other side win

  // ---------------------------------------------------------------------
  // Tick ladders

  /** What each case label adds in the cumulative ladder, indexed by digit. */
  const Increments: seq<int> := [0, 1, 9, 40, 100, 450, 2500, 15000, 18000, 72000]

  /**
    What each case label assigns in the first-assignment ladder, indexed by
    digit; these are also the tick counts the comments of every variant give.
   */
  const Assigned: seq<int> := [0, 1, 10, 50, 150, 600, 3000, 18000, 36000, 108000]

  /** Fall through from case `d` down to case '1', adding each increment. */
  function CumulativeTicks(d: int, ticks: int): (r: int)
    requires 0 <= d <= 9
    ensures ticks <= r
    ensures d > 0 ==> ticks < r
  {
    if d == 0 then ticks else CumulativeTicks(d - 1, ticks + Increments[d])
  }

  /** Fall through from case `d` down to case '1'; only a zero count is assigned. */
  function FirstAssignmentTicks(d: int, ticks: int): (r: int)
    requires 0 <= d <= 9
    ensures r == ticks || exists k :: 1 <= k <= d && r == Assigned[k]
  {
    if d == 0 then ticks
    else FirstAssignmentTicks(d - 1, if ticks != 0 then ticks else Assigned[d])
  }

  /** Sum of the increments of cases '1' .. `d`. */
  function IncrementSum(d: int): int
    requires 0 <= d <= 9
  {
    if d == 0 then 0 else Increments[d] + IncrementSum(d - 1)
  }

  /** Ticks selected by a digit (the count starts at zero for every command). */
  function Ticks(l: Ladder, d: Digit): int {
    match l
    case NoTicks => 0
    case Cumulative => CumulativeTicks(d, 0)
    case FirstAssignment => FirstAssignmentTicks(d, 0)
  }

  /** The cumulative ladder adds up every increment from the digit down. */
  lemma {:induction false} CumulativeIsSum(d: int, ticks: int)
    requires 0 <= d <= 9
    ensures CumulativeTicks(d, ticks) == ticks + IncrementSum(d)
  {
    if d > 0 {
      CumulativeIsSum(d - 1, ticks + Increments[d]);
    }
  }

  /** Once the count is non-zero, the remaining `||` guards leave it alone. */
  lemma {:induction false} FirstAssignmentKeeps(d: int, ticks: int)
    requires 0 <= d <= 9 && ticks != 0
    ensures FirstAssignmentTicks(d, ticks) == ticks
  {
    if d > 0 {
      FirstAssignmentKeeps(d - 1, ticks);
    }
  }

  /** The first-assignment ladder selects exactly the commented tick count. */
  lemma FirstAssignmentLadder(d: Digit)
    ensures Ticks(FirstAssignment, d) == Assigned[d]
  {
    if d > 0 {
      FirstAssignmentKeeps(d - 1, Assigned[d]);
    }
  }

  /**
    The cumulative ladder selects 0, 1, 10, 50, 150, 600, 3100, 18100, 36100
    and 108100 ticks: it agrees with the commented count up to '5' and
    exceeds it by 100 from '6' on.
   */
  lemma CumulativeLadder(d: Digit)
    ensures Ticks(Cumulative, d) == [0, 1, 10, 50, 150, 600, 3100, 18100, 36100, 108100][d]
    ensures d <= 5 ==> Ticks(Cumulative, d) == Assigned[d]
    ensures d >= 6 ==> Ticks(Cumulative, d) == Assigned[d] + 100
  {
    CumulativeIsSum(d, 0);
    assert IncrementSum(0) == 0;
    assert IncrementSum(1) == 1;
    assert IncrementSum(2) == 10;
    assert IncrementSum(3) == 50;
    assert IncrementSum(4) == 150;
    assert IncrementSum(5) == 600;
    assert IncrementSum(6) == 3100;
    assert IncrementSum(7) == 18100;
    assert IncrementSum(8) == 36100;
    assert IncrementSum(9) == 108100;
  }

  // ---------------------------------------------------------------------
  // Guards

  /** The guard test after which the command is skipped (`continue`). */
  predicate Skips(g: Guards, s: GameState, black: GameState, white: GameState) {
    match g
    case Grouped => !(s == black || s == white)
    case Ungrouped => !(s == black) || (s == white)
  }

  /** The inner switch of `p`. */
  function PauseTarget(s: GameState): Action {
    match s
    case BlackDraw => Goto(BlackPaused)
    case WhiteDraw => Goto(WhitePaused)
    case _ => Ignore
  }

  /** The inner switch of `c`. */
  function ContinueTarget(s: GameState): Action {
    match s
    case BlackPaused => Goto(BlackDraw)
    case WhitePaused => Goto(WhiteDraw)
    case _ => Ignore
  }

  /** The inner switch of `x`. */
  function SwitchTarget(s: GameState): Action {
    match s
    case BlackDraw => Goto(WhiteDraw)
    case WhiteDraw => Goto(BlackDraw)
    case _ => Ignore
  }

  /** The command switch of `runChessClock`: what `cmd` does in state `s`. */
  function Control(v: Variant, s: GameState, cmd: Command): (r: Action)
    ensures r == Halt <==> cmd == Quit
    ensures r == ResetClocks ==> cmd == Reset && (s, cmd) in TableOf(v.guards)
    ensures r.Goto? ==> IsMove(cmd) && (s, cmd) in TableOf(v.guards) && r.next == TableOf(v.guards)[(s, cmd)]
    ensures r.Tick? ==>
              && cmd.Advance? && v.ladder != NoTicks && r.ticks == Ticks(v.ladder, cmd.digit)
              && (s == WhiteDraw || s == BlackDraw)
              && (r.side == White <==> s == WhiteDraw)
  {
    match cmd
    case Reset =>
      if !(s == Initial || s == BlackWins || s == WhiteWins || s == BlackPaused || s == WhitePaused)
      then Ignore else ResetClocks
    case Start =>
      if !(s == Startable) then Ignore else Goto(WhiteDraw)
    case Pause =>
      if Skips(v.guards, s, BlackDraw, WhiteDraw) then Ignore else PauseTarget(s)
    case Continue =>
      if Skips(v.guards, s, BlackPaused, WhitePaused) then Ignore else ContinueTarget(s)
    case Switch =>
      if Skips(v.guards, s, BlackDraw, WhiteDraw) then Ignore else SwitchTarget(s)
    case Advance(d) =>
      if v.ladder == NoTicks then Ignore
      else if s == BlackDraw then Tick(Black, Ticks(v.ladder, d))
      else if s == WhiteDraw then Tick(White, Ticks(v.ladder, d))
      else Ignore
    case Help => Ignore
    case Quit => Halt
  }

  /** A state-changing command: reset, start, pause, continue or switch. */
  predicate IsMove(cmd: Command) {
    cmd.Reset? || cmd.Start? || cmd.Pause? || cmd.Continue? || cmd.Switch?
  }

  /**
    The transition table of the game, as a reference independent of the
    switch: reset from the initial, won or paused states; start from
    Startable; pause and continue on the same side; switch between the
    two drawing states.
   */
  const Transitions: map<(GameState, Command), GameState> := map[
    (Initial, Reset) := Startable,
    (WhiteWins, Reset) := Startable,
    (BlackWins, Reset) := Startable,
    (WhitePaused, Reset) := Startable,
    (BlackPaused, Reset) := Startable,
    (Startable, Start) := WhiteDraw,
    (WhiteDraw, Pause) := WhitePaused,
    (BlackDraw, Pause) := BlackPaused,
    (WhitePaused, Continue) := WhiteDraw,
    (BlackPaused, Continue) := BlackDraw,
    (WhiteDraw, Switch) := BlackDraw,
    (BlackDraw, Switch) := WhiteDraw
  ]

  /** The rows the ungrouped guards let through: no white pause, continue or switch. */
  const UngroupedTransitions: map<(GameState, Command), GameState> :=
    Transitions - {(WhiteDraw, Pause), (WhitePaused, Continue), (WhiteDraw, Switch)}

  function TableOf(g: Guards): map<(GameState, Command), GameState> {
    if g == Grouped then Transitions else UngroupedTransitions
  }

  /**
    The switch follows the table: a state-changing command acts exactly on
    the table's rows, and goes where the table says.
   */
  lemma ControlFollowsTable(v: Variant, s: GameState, cmd: Command)
    requires IsMove(cmd)
    ensures (s, cmd) in TableOf(v.guards) <==> Control(v, s, cmd) != Ignore
    ensures (s, cmd) in TableOf(v.guards) && cmd == Reset ==>
              Control(v, s, cmd) == ResetClocks && TableOf(v.guards)[(s, cmd)] == Startable
    ensures (s, cmd) in TableOf(v.guards) && cmd != Reset ==>
              Control(v, s, cmd) == Goto(TableOf(v.guards)[(s, cmd)])
  {
  }
}
