/**
  `runChessClock` over integer clocks (Solution/Step_03.cpp,
  Solution/Step_04.cpp, Prepared/Step_04-07.cpp, Solution/Step_07.cpp):
  a pure transition function over (state, white clock, black clock).
 */
module IntegerMachine {
  import opened GameControl
  import opened IntClock

  type IntBoard = Board<IntClock.Clock>

  /** Both clocks default-constructed to zero, the game in Initial. */
  const PowerOn: IntBoard := Board(Initial, IntClock.Clock(0), IntClock.Clock(0))

  /**
    Carry out an action on the two clocks and the state: only a tick moves
    a single clock, only a reset moves both, and a clock that a tick runs
    out hands the win to the other side.
   */
  function Apply(a: Action, b: IntBoard): (r: IntBoard)
    ensures !a.Tick? && a != ResetClocks ==> r.white == b.white && r.black == b.black
    ensures a.Tick? && a.side == White ==> r.black == b.black
    ensures a.Tick? && a.side == Black ==> r.white == b.white
    ensures a.Tick? && a.side == White ==> (if Running(r.white) then r.state == b.state else r.state == BlackWins)
    ensures a.Tick? && a.side == Black ==> (if Running(r.black) then r.state == b.state else r.state == WhiteWins)
    ensures a == ResetClocks ==> r.state == Startable && Get(r.white) == InitialTime && Get(r.black) == InitialTime
  {
    match a
    case Ignore => b
    case Halt => b
    case Goto(s) => b.(state := s)
    case ResetClocks => Board(Startable, Set(InitialTime), Set(InitialTime))
    case Tick(White, n) =>
      var w := CountDown(b.white, n).1;
      if !Running(w) then Board(BlackWins, w, b.black) else b.(white := w)
    case Tick(Black, n) =>
      var k := CountDown(b.black, n).1;
      if !Running(k) then Board(WhiteWins, b.white, k) else b.(black := k)
  }

  /**
    One pass of the command loop. A clock moves only on a reset, or on a
    digit while its own side is drawing.
   */
  function Next(v: Variant, b: IntBoard, cmd: Command): (r: IntBoard)
    ensures r.white != b.white ==> cmd == Reset || (cmd.Advance? && b.state == WhiteDraw)
    ensures r.black != b.black ==> cmd == Reset || (cmd.Advance? && b.state == BlackDraw)
  {
    Apply(Control(v, b.state, cmd), b)
  }

  /**
    The command loop: process commands in order until `.` or the end of
    input. A run of `?` (or of unhandled letters) changes nothing.
   */
  function Run(v: Variant, b: IntBoard, cmds: seq<Command>): (r: IntBoard)
    ensures (forall j :: 0 <= j < |cmds| ==> cmds[j] == Help) ==> r == b
    decreases |cmds|
  {
    if |cmds| == 0 || cmds[0] == Quit then b else Run(v, Next(v, b, cmds[0]), cmds[1..])
  }

  /** The loop ends at the first `.`: nothing after it has any effect. */
  lemma {:induction false} RunStopsAtQuit(v: Variant, b: IntBoard, cmds: seq<Command>, j: nat)
    requires j < |cmds| && cmds[j] == Quit
    ensures Run(v, b, cmds) == Run(v, b, cmds[..j])
    decreases j
  {
    if cmds[0] != Quit {
      assert cmds[..j][1..] == cmds[1..][..j - 1];
      RunStopsAtQuit(v, Next(v, b, cmds[0]), cmds[1..], j - 1);
    }
  }

  // ---------------------------------------------------------------------
  // The guard table

  /**
    Reset, start, pause, continue and switch act exactly on the rows of the
    variant's table and move to the state it names; reset also sets both
    clocks to InitialTime. Any other (state, command) pair changes nothing.
   */
  lemma GuardTable(v: Variant, b: IntBoard, cmd: Command)
    requires IsMove(cmd)
    ensures (b.state, cmd) !in TableOf(v.guards) ==> Next(v, b, cmd) == b
    ensures (b.state, cmd) in TableOf(v.guards) ==>
              Next(v, b, cmd).state == TableOf(v.guards)[(b.state, cmd)]
    ensures (b.state, cmd) in TableOf(v.guards) && cmd != Reset ==>
              Next(v, b, cmd).white == b.white && Next(v, b, cmd).black == b.black
    ensures (b.state, cmd) in TableOf(v.guards) && cmd == Reset ==>
              Get(Next(v, b, cmd).white) == InitialTime && Get(Next(v, b, cmd).black) == InitialTime
  {
    ControlFollowsTable(v, b.state, cmd);
  }

  /** Help, and every command when the variant has no ticking, change nothing. */
  lemma IgnoredCommands(v: Variant, b: IntBoard, d: Digit)
    ensures Next(v, b, Help) == b
    ensures v.ladder == NoTicks ==> Next(v, b, Advance(d)) == b
  {
  }

  // ---------------------------------------------------------------------
  // Tick dispatch

  /**
    A digit ticks only the clock of the side that is drawing, by the number
    of ticks its ladder selects; that side loses exactly when its clock is
    then at zero. In every other state the digit is ignored.
   */
  lemma TickDispatch(v: Variant, b: IntBoard, d: Digit)
    requires v.ladder != NoTicks
    requires Get(b.white) >= 0 && Get(b.black) >= 0
    ensures var r := Next(v, b, Advance(d));
            var n := Ticks(v.ladder, d);
            && (b.state == WhiteDraw ==>
                  && r.black == b.black
                  && Get(r.white) == (if n <= 0 then Get(b.white) else Max(0, Get(b.white) - n))
                  && (r.state == BlackWins <==> Get(r.white) == 0)
                  && (r.state != BlackWins ==> r.state == WhiteDraw))
            && (b.state == BlackDraw ==>
                  && r.white == b.white
                  && Get(r.black) == (if n <= 0 then Get(b.black) else Max(0, Get(b.black) - n))
                  && (r.state == WhiteWins <==> Get(r.black) == 0)
                  && (r.state != WhiteWins ==> r.state == BlackDraw))
            && (b.state != WhiteDraw && b.state != BlackDraw ==> r == b)
  {
  }

  // ---------------------------------------------------------------------
  // The clock invariant

  /**
    While a game is set up, running or paused both clocks have time left;
    a side has won only when the other side's clock is at zero.
   */
  ghost predicate Consistent(b: IntBoard) {
    && Get(b.white) >= 0 && Get(b.black) >= 0
    && (b.state in {Startable, WhiteDraw, BlackDraw, WhitePaused, BlackPaused} ==>
          Get(b.white) > 0 && Get(b.black) > 0)
    && (b.state == BlackWins ==> Get(b.white) == 0)
    && (b.state == WhiteWins ==> Get(b.black) == 0)
  }

  lemma NextConsistent(v: Variant, b: IntBoard, cmd: Command)
    requires Consistent(b)
    ensures Consistent(Next(v, b, cmd))
  {
  }

  lemma {:induction false} RunConsistent(v: Variant, b: IntBoard, cmds: seq<Command>)
    requires Consistent(b)
    ensures Consistent(Run(v, b, cmds))
    decreases |cmds|
  {
    if |cmds| > 0 && cmds[0] != Quit {
      NextConsistent(v, b, cmds[0]);
      RunConsistent(v, Next(v, b, cmds[0]), cmds[1..]);
    }
  }

  /** From power-on, every input keeps the clock invariant. */
  lemma PowerOnConsistent(v: Variant, cmds: seq<Command>)
    ensures Consistent(Run(v, PowerOn, cmds))
  {
    RunConsistent(v, PowerOn, cmds);
  }

  // ---------------------------------------------------------------------
  // Running a clock out

  function Repeat(cmd: Command, k: nat): (r: seq<Command>)
    ensures |r| == k && forall j :: 0 <= j < k ==> r[j] == cmd
  {
    if k == 0 then [] else [cmd] + Repeat(cmd, k - 1)
  }

  /**
    Once either side has won, the game is over until a reset: ticks of any
    digit, and every other command but `r`, change nothing.
   */
  lemma {:induction false} WinIsFinal(v: Variant, b: IntBoard, cmds: seq<Command>)
    requires b.state == BlackWins || b.state == WhiteWins
    requires forall j :: 0 <= j < |cmds| ==> cmds[j] != Reset
    ensures Run(v, b, cmds) == b
    decreases |cmds|
  {
    if |cmds| > 0 && cmds[0] != Quit {
      assert Next(v, b, cmds[0]) == b;
      WinIsFinal(v, b, cmds[1..]);
    }
  }

  /**
    Ticking one tenth at a time, White's clock of `w` tenths runs down by
    one per command and White loses exactly on the `w`-th tick; Black's
    clock never moves.
   */
  lemma {:induction false} WhiteRunsOut(v: Variant, w: int, black: IntClock.Clock, k: nat)
    requires v.ladder != NoTicks
    requires w > 0
    ensures Run(v, Board(WhiteDraw, IntClock.Clock(w), black), Repeat(Advance(1), k))
         == if k < w then Board(WhiteDraw, IntClock.Clock(w - k), black)
            else Board(BlackWins, IntClock.Clock(0), black)
  {
    if k > 0 {
      var b := Board(WhiteDraw, IntClock.Clock(w), black);
      assert Ticks(v.ladder, 1) == 1 by {
        if v.ladder == Cumulative { CumulativeLadder(1); } else { FirstAssignmentLadder(1); }
      }
      var b' := Next(v, b, Advance(1));
      assert Repeat(Advance(1), k)[1..] == Repeat(Advance(1), k - 1);
      if w == 1 {
        assert b' == Board(BlackWins, IntClock.Clock(0), black);
        WinIsFinal(v, b', Repeat(Advance(1), k - 1));
      } else {
        assert b' == Board(WhiteDraw, IntClock.Clock(w - 1), black);
        WhiteRunsOut(v, w - 1, black, k - 1);
      }
    }
  }

  /**
    End to end from power-on: reset, start, then `k` single-tenth ticks.
    White draws with `InitialTime - k` tenths left until the 18000th tick,
    on which Black wins; Black's clock stays at InitialTime throughout.
   */
  lemma ResetStartAndRunOut(v: Variant, k: nat)
    requires v.ladder != NoTicks
    ensures Run(v, PowerOn, [Reset, Start] + Repeat(Advance(1), k))
         == if k < InitialTime then Board(WhiteDraw, IntClock.Clock(InitialTime - k), IntClock.Clock(InitialTime))
            else Board(BlackWins, IntClock.Clock(0), IntClock.Clock(InitialTime))
  {
    var ticks := Repeat(Advance(1), k);
    var full := Board(Startable, IntClock.Clock(InitialTime), IntClock.Clock(InitialTime));
    ResetAndStart(v);
    assert [Reset, Start] + ticks == [Reset] + ([Start] + ticks);
    RunFirst(v, PowerOn, Reset, [Start] + ticks);
    RunFirst(v, full, Start, ticks);
    WhiteRunsOut(v, InitialTime, IntClock.Clock(InitialTime), k);
  }

  /** `r` from power-on sets both clocks up; `s` then lets White draw. */
  lemma ResetAndStart(v: Variant)
    ensures Next(v, PowerOn, Reset) == Board(Startable, IntClock.Clock(InitialTime), IntClock.Clock(InitialTime))
    ensures Next(v, Board(Startable, IntClock.Clock(InitialTime), IntClock.Clock(InitialTime)), Start)
         == Board(WhiteDraw, IntClock.Clock(InitialTime), IntClock.Clock(InitialTime))
  {
  }

  /** The loop takes one pass for a first command other than `.`. */
  lemma RunFirst(v: Variant, b: IntBoard, cmd: Command, rest: seq<Command>)
    requires cmd != Quit
    ensures Run(v, b, [cmd] + rest) == Run(v, Next(v, b, cmd), rest)
  {
    assert ([cmd] + rest)[1..] == rest;
  }

  // ---------------------------------------------------------------------
  // The ungrouped guards of Solution/Step_03.cpp

  /**
    As written, `not (s == BlackDraw) || (s == WhiteDraw)` passes only in
    BlackDraw: pausing or switching while White draws does nothing.
   */
  lemma UngroupedGuardsStrandWhite(b: IntBoard)
    requires b.state == WhiteDraw
    ensures Next(Step03, b, Pause) == b
    ensures Next(Step03, b, Switch) == b
    ensures Next(Step03, b.(state := WhitePaused), Continue) == b.(state := WhitePaused)
    ensures Next(Step04, b, Pause) == b.(state := WhitePaused)
    ensures Next(Step04, b, Switch) == b.(state := BlackDraw)
  {
  }

  /** The states Solution/Step_03.cpp can reach from Initial. */
  predicate Step03Reachable(s: GameState) {
    s == Initial || s == Startable || s == WhiteDraw
  }

  /**
    In Solution/Step_03.cpp, WhiteDraw accepts no state-changing command, so
    from Initial only Initial, Startable and WhiteDraw are ever reached.
   */
  lemma {:induction false} Step03StaysReachable(b: IntBoard, cmds: seq<Command>)
    requires Step03Reachable(b.state)
    ensures Step03Reachable(Run(Step03, b, cmds).state)
    decreases |cmds|
  {
    if |cmds| > 0 && cmds[0] != Quit {
      Step03StaysReachable(Next(Step03, b, cmds[0]), cmds[1..]);
    }
  }

  /** With the grouped guards, the same game reaches pause, switch and a win. */
  lemma GroupedGuardsReachMore()
    ensures Run(Step04, PowerOn, [Reset, Start, Pause]).state == WhitePaused
    ensures Run(Step04, PowerOn, [Reset, Start, Switch]).state == BlackDraw
    ensures Run(Step07, PowerOn, [Reset, Start, Advance(7)]).state == BlackWins
  {
    var b := Board(Startable, IntClock.Clock(InitialTime), IntClock.Clock(InitialTime));
    var wd := b.(state := WhiteDraw);
    assert Next(Step04, PowerOn, Reset) == b && Next(Step04, b, Start) == wd;
    assert Next(Step07, PowerOn, Reset) == b && Next(Step07, b, Start) == wd;
    ReachAfterStart(Step04, Pause, wd.(state := WhitePaused));
    ReachAfterStart(Step04, Switch, wd.(state := BlackDraw));
    CumulativeLadder(7);
    ReachAfterStart(Step07, Advance(7), Board(BlackWins, IntClock.Clock(0), b.black));
  }

  /** `r`, `s`, then one more command from power-on. */
  lemma ReachAfterStart(v: Variant, cmd: Command, r: IntBoard)
    requires cmd != Quit
    requires Next(v, Next(v, Next(v, PowerOn, Reset), Start), cmd) == r
    ensures Run(v, PowerOn, [Reset, Start, cmd]) == r
  {
    var b1 := Next(v, PowerOn, Reset);
    var b2 := Next(v, b1, Start);
    assert [Reset, Start, cmd] == [Reset] + ([Start] + ([cmd] + []));
    RunFirst(v, PowerOn, Reset, [Start] + ([cmd] + []));
    RunFirst(v, b1, Start, [cmd] + []);
    RunFirst(v, b2, cmd, []);
  }
}
