# Chess clock: verified model

This project models the core of a C++ tutorial that builds a two-player
chess clock in steps. Each tutorial file is a complete variant of the
program. The model shares one Dafny definition per layer and picks a small
instance for each variant:

- **Down-counter chain** (`counter.dfy`, module `DownCounter`). It models
  `DownCounter` (Prepared/Step_08.cpp, Prepared/Step_09.cpp) and the
  `BaseDownCounter`/`ChainableDownCounter` pair (Solution/Step_10.cpp). A
  chain is a `seq<Place>`. Place `i` is chained to place `i + 1`, and the
  last place has no next place. `Set` clamps, `IsCounting` looks up the
  chain, and `Step` decrements or borrows. Read as a mixed-radix number,
  one `Step` lowers a positive chain by exactly one and leaves a zero chain
  unchanged.
- **Integer clock** (`int_clock.dfy`, module `IntClock`). This is the
  `Clock` holding `int tenthSeconds_` in Solution/Step_04.cpp,
  Prepared/Step_04-07.cpp and Solution/Step_07.cpp. It provides
  `set`/`get`, `operator bool`, the saturating `operator--`, and
  `countClockDown`/`operator-=` in both written forms.
- **Chained clock** (`chained_clock.dfy`, module `ChainedClock`). This is
  the `Clock` of Step_08/09/10. It has three places: tenths (radix 10),
  seconds (radix 60) and minutes (radix 1000). On every well-formed clock
  it refines the integer clock.
- **Command dispatch** (`game_control.dfy`, module `GameControl`). This is
  the command switch of `runChessClock`. It covers the eight `GameState`s,
  the commands, the guards and the two tick ladders. The result is an
  `Action`. A reference transition table is proved to agree with the
  switch.
- **Machines** (`integer_machine.dfy`, `chained_machine.dfy`). Each one is
  a pure transition function over (state, white clock, black clock), with
  a `Run` over a command sequence. Commands are processed until `.` is
  read. The chained machine is proved to be simulated by the integer
  machine, so the clock invariant and the run-out behaviour carry over.

The variants are named constants in `GameControl`:

| variant | guards | ladder | clock |
|---|---|---|---|
| Solution/Step_03.cpp | `Ungrouped` (as written) | `NoTicks` | integer |
| Solution/Step_04.cpp, Prepared/Step_04-07.cpp | `Grouped` | `NoTicks` | integer |
| Solution/Step_07.cpp | `Grouped` | `Cumulative` | integer |
| Prepared/Step_08.cpp, Prepared/Step_09.cpp | `Grouped` | `Cumulative` | chained |
| Solution/Step_10.cpp | `Grouped` | `FirstAssignment` | chained |

Solution/Step_04.cpp, Prepared/Step_04-07.cpp, Prepared/Step_09.cpp and
Solution/Step_10.cpp select `#if 1`, which compiles only their test `main`.
The model of `Clock` and `runChessClock` follows the `#else` text of those
files; the down-counter tests follow their `#if 1` text.

Two facts about the code are easy to misread:

- Digit `0` selects no ticks and `1` selects one tick
  (Solution/Step_10.cpp:304-305).
- The minutes place has radix 1000, so `set` clamps minutes to 999
  (Solution/Step_10.cpp:150).

## Model

| member | source | states |
|---|---|---|
| DownCounter.Set | Solution/Step_10.cpp:29-33 | the stored value is min(v, radix-1): unchanged below the radix, clamped to radix-1 otherwise; a non-negative value lands inside the radix (same code in Prepared/Step_09.cpp:42-46) |
| DownCounter.SetAt | Prepared/Step_08.cpp:36-40 | setting one place of a chain clamps that place and changes no other place (no cascade on set) |
| DownCounter.IsCounting | Solution/Step_10.cpp:35-38 | a place counts iff it or some more significant place in its chain is non-zero; an unchained place counts only on its own value (Prepared/Step_09.cpp:48-51) |
| DownCounter.Step | Solution/Step_10.cpp:40-62 | a step of place i never touches less significant places or any radix, and keeps every place within its radix |
| DownCounter.StepLowersValue | Prepared/Step_09.cpp:53-62 | on a well-formed chain one step lowers the composite mixed-radix value by exactly 1 while it is positive; an exhausted chain is left unchanged |
| DownCounter.CountingIffPositive | Prepared/Step_08.cpp:42-45 | on a well-formed chain `is_counting` holds iff the composite value from that place up is positive |
| DownCounter.StepsLowerValue | Prepared/Step_08.cpp:47-56 | k steps leave the composite value at max(0, value - k) |
| DownCounter.SingleStageTest | Solution/Step_10.cpp:70-85 | an unchained radix-5 place set to 3 steps down 3, 2, 1, 0, 0 and stops counting at 0; set(7) gives 4 |
| DownCounter.DoubleStageTest | Prepared/Step_09.cpp:105-124 | a radix-2 place chained to a radix-5 place set to 3 walks through exactly the pairs the test asserts, down to 0 and staying there (also Solution/Step_10.cpp:87-106) |
| DownCounter.TripleStageTest | Solution/Step_10.cpp:108-136 | three chained radix-2 places set to 1 walk composite 7 down to 0 through exactly the triples the test asserts (also Prepared/Step_09.cpp:126-154) |
| IntClock.Set | Solution/Step_07.cpp:23-28 | `get` returns exactly what `set` stored (same in Solution/Step_04.cpp:23-28 and Prepared/Step_04-07.cpp:23-28) |
| IntClock.Dec | Solution/Step_04.cpp:36-45 | `operator--` leaves max(0, v-1) on a non-negative clock and never goes below zero |
| IntClock.CountDown | Solution/Step_07.cpp:62-70 | for a start v >= 0, `-= n` returns true iff v >= n and leaves max(0, v-n); a clock at or below zero refuses every positive request unchanged (also `countClockDown` at Solution/Step_04.cpp:66-74) |
| IntClock.CountDownByGet | Prepared/Step_04-07.cpp:87-95 | the get/set `countClockDown` returns v >= n and leaves max(0, v-n) for v >= 0; because it tests `== 0`, a negative start is decremented n times and reported as success |
| ChainedClock.TotalOfPlaces | Solution/Step_10.cpp:148-152 | a valid clock's total is tenths + 10*seconds + 600*minutes and lies in [0, 600000) |
| ChainedClock.Zero | Prepared/Step_09.cpp:168-170 | the default-constructed clock is valid and holds 0 |
| ChainedClock.Set | Solution/Step_10.cpp:168-172 | `set(ts)` yields a valid clock whose total is ts below 600000, and 599400 + ts % 600 (minutes clamped to 999) above |
| ChainedClock.Running | Prepared/Step_09.cpp:192-194 | `operator bool` (tenths place counting) holds iff the total is positive |
| ChainedClock.Tick | Prepared/Step_08.cpp:100-103 | `operator--` keeps the clock valid, lowers a positive total by 1 and leaves a zero clock unchanged |
| ChainedClock.TickBy | Solution/Step_10.cpp:201-209 | `-= n` returns true iff the total was >= n and leaves the total at max(0, total-n) |
| ChainedClock.SetRefines | Prepared/Step_09.cpp:186-190 | below 600000, setting the chained clock gives the same total as setting the integer clock |
| ChainedClock.TickRefines | Prepared/Step_08.cpp:96-103 | chained `operator bool` and `operator--` agree with the integer clock's on the total |
| ChainedClock.TickByRefines | Prepared/Step_09.cpp:219-227 | chained `-= n` gives the same result and total as the integer clock's `-= n` |
| ChainedClock.SetAndTickByExamples | Solution/Step_10.cpp:168-209 | set(1201) holds the places (2, 0, 1), which `show` prints as `  2:00.1`; a clock set to 5 tenths and asked for 10 ticks returns false and stops running |
| GameControl.CumulativeIsSum | Prepared/Step_09.cpp:306-315 | the `+=` fallthrough from digit d adds every increment of cases d down to 1 |
| GameControl.CumulativeLadder | Solution/Step_07.cpp:194-203 | the cumulative ladder gives 0, 1, 10, 50, 150, 600, 3100, 18100, 36100, 108100: equal to the commented counts up to 5, 100 more from 6 on (same in Prepared/Step_08.cpp:207-216) |
| GameControl.FirstAssignmentKeeps | Solution/Step_10.cpp:296-304 | once the tick count is non-zero, the remaining `ticks = k` assignments, guarded by the short-circuit or, keep it |
| GameControl.FirstAssignmentLadder | Solution/Step_10.cpp:296-305 | the first-assignment ladder gives exactly 0, 1, 10, 50, 150, 600, 3000, 18000, 36000, 108000 |
| GameControl.ControlFollowsTable | Solution/Step_10.cpp:241-295 | for r, s, p, c and x the switch acts exactly on the rows of the transition table (reset from Initial, either Wins or either Paused; start from Startable; pause/continue on the same side; switch between draws) and goes where the table says |
| IntegerMachine.GuardTable | Solution/Step_07.cpp:136-193 | a guarded command outside the table leaves state and clocks unchanged; inside it moves to the table's state, and reset also sets both clocks to 18000 (same table in Solution/Step_04.cpp:158-213 and Prepared/Step_04-07.cpp:185-241) |
| IntegerMachine.IgnoredCommands | Solution/Step_04.cpp:214-238 | `?` changes nothing; in the variants without ticking every digit leaves state and clocks unchanged (also Prepared/Step_04-07.cpp:242-266, Solution/Step_03.cpp:152-163) |
| IntegerMachine.TickDispatch | Solution/Step_07.cpp:204-218 | a digit in WhiteDraw changes only White's clock, to max(0, w-n), and moves to BlackWins iff that clock is then 0; BlackDraw mirrors it; any other state ignores the digit |
| IntegerMachine.NextConsistent | Solution/Step_07.cpp:135-218 | every command preserves the clock invariant: both clocks > 0 in Startable, Draw and Paused states, white = 0 in BlackWins, black = 0 in WhiteWins |
| IntegerMachine.RunConsistent | Solution/Step_07.cpp:119-231 | the command loop preserves the clock invariant over any command sequence |
| IntegerMachine.PowerOnConsistent | Solution/Step_07.cpp:115-117 | from Initial with both clocks at 0, the invariant holds after any input |
| IntegerMachine.WinIsFinal | Solution/Step_07.cpp:136-228 | once either side has won, any sequence of commands without `r` leaves state and clocks unchanged: no guard but reset's accepts a Wins state, and digits tick only in a Draw state |
| IntegerMachine.WhiteRunsOut | Solution/Step_07.cpp:210-214 | single-tenth ticks lower White's w tenths by one each, and Black wins exactly on the w-th tick with Black's clock untouched |
| IntegerMachine.ResetStartAndRunOut | Solution/Step_07.cpp:136-218 | after r and s, k ticks of `1` leave White drawing with 18000-k tenths, until the 18000th tick makes Black the winner |
| IntegerMachine.UngroupedGuardsStrandWhite | Solution/Step_03.cpp:105-144 | as written, p and x in WhiteDraw and c in WhitePaused do nothing, whereas the grouped guards pause or switch |
| IntegerMachine.Step03StaysReachable | Solution/Step_03.cpp:88-144 | from Initial, Startable or WhiteDraw every input keeps the Step_03 game in those three states |
| IntegerMachine.GroupedGuardsReachMore | Prepared/Step_04-07.cpp:202-241 | with grouped guards, r s p reaches WhitePaused and r s x reaches BlackDraw; with the Step_07 ladder, r s 7 makes Black the winner |
| ChainedMachine.Next | Prepared/Step_08.cpp:151-231 | every command keeps both chained clocks valid |
| DownCounter.Steps | Solution/Step_10.cpp:87-106 | repeating the least significant place's `step` k times, as the tests do, keeps the chain's length and every place within its radix |
| IntClock.Running | Solution/Step_07.cpp:29-31 | `operator bool` holds exactly when `operator--` would still change the clock |
| GameControl.CumulativeTicks | Solution/Step_07.cpp:194-203 | the `+=` fallthrough never lowers the count, and any digit from 1 up raises it |
| GameControl.FirstAssignmentTicks | Solution/Step_10.cpp:296-305 | the `ticks || (ticks = k)` fallthrough either keeps the incoming count or selects one of the commented counts of cases 1 .. d |
| GameControl.Control | Solution/Step_10.cpp:240-333 | the command switch halts exactly on `.`; a reset or a state change happens only on a row of the transition table and goes where the table says; a tick happens only for a digit in a Draw state, on the drawing side's clock, by the ladder's count |
| IntegerMachine.Apply | Solution/Step_07.cpp:136-218 | only a tick moves one clock and only a reset moves both; a tick that stops the clock gives the win to the other side, otherwise the state stays; a reset gives Startable with both clocks at 18000 |
| IntegerMachine.Next | Solution/Step_07.cpp:135-232 | in one pass of the loop a clock moves only on `r` or on a digit while its own side is drawing |
| IntegerMachine.Run | Solution/Step_07.cpp:119-231 | the command loop: a sequence of only `?` (or unhandled letters) leaves state and clocks unchanged |
| IntegerMachine.RunStopsAtQuit | Solution/Step_07.cpp:229-231 | the loop returns at the first `.`: a run equals the run of the commands before it, whatever follows |
| ChainedMachine.Apply | Solution/Step_10.cpp:241-330 | actions keep both chained clocks valid, and only a tick or a reset moves a clock; a tick moves only its own side's clock |
| ChainedMachine.Run | Solution/Step_10.cpp:224-334 | the chained command loop keeps both clocks valid, and a sequence of only `?` changes nothing |
| ChainedMachine.NextRefines | Prepared/Step_09.cpp:250-330 | one command on chained clocks has the same effect on state and totals as on integer clocks |
| ChainedMachine.RunRefines | Solution/Step_10.cpp:224-334 | the chained command loop is simulated step for step by the integer command loop |
| ChainedMachine.PowerOnConsistent | Prepared/Step_08.cpp:139-231 | the chained game keeps the clock invariant from power-on under any input |
| ChainedMachine.ResetStartAndRunOut | Solution/Step_10.cpp:241-320 | after r and s, k ticks of `1` leave White with 18000-k tenths and Black wins on the 18000th tick; Black's total stays 18000 |

## Findings

| source | as written | input that shows it | evidently intended | confidence | as-written member | corrected member |
|---|---|---|---|---|---|---|
| Solution/Step_03.cpp:105-144 | the pause guard negates only its first comparison (`not (s == BlackDraw)`, then or-ed with `s == WhiteDraw`), so it passes only in BlackDraw (and `c` only in BlackPaused) | state WhiteDraw, command `p` (or `x`); state WhitePaused, command `c` | the negation of the whole disjunction, as in every later variant | high (not executed) | IntegerMachine.UngroupedGuardsStrandWhite | IntegerMachine.GuardTable |
| Solution/Step_07.cpp:194-203 | the `+=` fallthrough adds every lower case's increment, so digits 6..9 select 3100, 18100, 36100, 108100 ticks | digit `6` in WhiteDraw ticks 3100 times | 3000, 18000, 36000, 108000 ticks, as the comments say (5 min, 30 min, 1 h, 3 h); same in Prepared/Step_08.cpp:207-216 and Prepared/Step_09.cpp:306-315 | high (not executed) | GameControl.CumulativeLadder | GameControl.FirstAssignmentLadder |

The corrected guards (`Grouped`) are used by every variant except
Solution/Step_03.cpp. The corrected ladder (`FirstAssignment`) is the one of
Solution/Step_10.cpp. The Step_07/08/09 instances keep the cumulative ladder
as written, because that is what those files do.

## Left out

- Input and output: the `std::cin.get` loop, the `tolower`/`islower`/`isdigit` filtering, the echo lines, the board printing and the win banners. Commands are a datatype. Every letter that no case handles behaves like `Help`, and `.` (`Quit`) ends `Run`.
- Presentation: `Clock::show`, `operator<<` and the `setw`/`setfill`/`std::to_string` formatting. The chained clock only exposes its (minutes, seconds, tenths) triple.
- Solution/Step_01.cpp, Solution/Step_01a.cpp and Solution/Step_02.cpp. They hold only a trivial set/get, formatting and a command switch without guards or ticks.
- C++ object mechanics: deleted copy/move operations, virtual dispatch, and pointers versus references. The chain is a sequence in which the next place is the following index.
- The radix-0 default constructor of `DownCounter` (Prepared/Step_08.cpp:26), which is never used by the clock.
- ChainedClock.Set: requires a non-negative total. C++ truncating `%` and `/` on negative totals are not modelled; the program only ever sets 18000.
- IntClock.CountDownByGet: integers are unbounded. The signed overflow that a negative start followed by a very large request would cause in C++ is not modelled.
- The 32-bit width of `int` in general. Tick counts are at most 108100, and chained totals stay below 600000, so no overflow can occur in the modelled paths.
- Real-time or threaded ticking. It appears only in comments and is not implemented.
