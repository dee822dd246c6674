/**
  `runChessClock` over chained clocks (Prepared/Step_08.cpp,
  Prepared/Step_09.cpp, Solution/Step_10.cpp). The dispatch is the shared
  one with grouped guards; only the ladder differs between the variants.
  Every chained run is simulated step for step by the integer machine, so
  the integer machine's properties carry over.
 */
module ChainedMachine {
  import opened GameControl
  import opened ChainedClock
  import IntClock
  import IntegerMachine

  type ChainBoard = Board<ChainedClock.Clock>

  /** Both clocks default-constructed with every place at zero. */
  function PowerOn(): (b: ChainBoard)
    ensures Valid(b.white) && Valid(b.black)
  {
    Board(Initial, Zero(), Zero())
  }

  ghost predicate ValidBoard(b: ChainBoard) {
    Valid(b.white) && Valid(b.black)
  }

  /** Carry out an action: clocks stay valid and only a tick or a reset moves them. */
  function Apply(a: Action, b: ChainBoard): (r: ChainBoard)
    requires ValidBoard(b)
    ensures ValidBoard(r)
    ensures !a.Tick? && a != ResetClocks ==> r.white == b.white && r.black == b.black
    ensures a.Tick? && a.side == White ==> r.black == b.black
    ensures a.Tick? && a.side == Black ==> r.white == b.white
  {
    match a
    case Ignore => b
    case Halt => b
    case Goto(s) => b.(state := s)
    case ResetClocks => Board(Startable, Set(b.white, InitialTime), Set(b.black, InitialTime))
    case Tick(White, n) =>
      var w := TickBy(b.white, n).1;
      if !Running(w) then Board(BlackWins, w, b.black) else b.(white := w)
    case Tick(Black, n) =>
      var k := TickBy(b.black, n).1;
      if !Running(k) then Board(WhiteWins, b.white, k) else b.(black := k)
  }

  /** Prepared/Step_08.cpp and Prepared/Step_09.cpp use `Cumulative`, Solution/Step_10.cpp `FirstAssignment`. */
  function Next(l: Ladder, b: ChainBoard, cmd: Command): (r: ChainBoard)
    requires ValidBoard(b)
    ensures ValidBoard(r)
  {
    Apply(Control(Variant(Grouped, l), b.state, cmd), b)
  }

  /** The command loop keeps both clocks valid; a run of `?` changes nothing. */
  function Run(l: Ladder, b: ChainBoard, cmds: seq<Command>): (r: ChainBoard)
    requires ValidBoard(b)
    ensures ValidBoard(r)
    ensures (forall j :: 0 <= j < |cmds| ==> cmds[j] == Help) ==> r == b
    decreases |cmds|
  {
    if |cmds| == 0 || cmds[0] == Quit then b else Run(l, Next(l, b, cmds[0]), cmds[1..])
  }

  /** The integer board a chained board stands for. */
  function AbsBoard(b: ChainBoard): IntegerMachine.IntBoard {
    Board(b.state, Abs(b.white), Abs(b.black))
  }

  /** One command on chained clocks does what it does on integer clocks. */
  lemma NextRefines(l: Ladder, b: ChainBoard, cmd: Command)
    requires ValidBoard(b)
    ensures AbsBoard(Next(l, b, cmd)) == IntegerMachine.Next(Variant(Grouped, l), AbsBoard(b), cmd)
  {
    var v := Variant(Grouped, l);
    match Control(v, b.state, cmd)
    case ResetClocks =>
      SetRefines(b.white, InitialTime);
      SetRefines(b.black, InitialTime);
    case Tick(White, n) =>
      TickByRefines(b.white, n);
      TickRefines(TickBy(b.white, n).1);
    case Tick(Black, n) =>
      TickByRefines(b.black, n);
      TickRefines(TickBy(b.black, n).1);
    case _ =>
  }

  /** A whole run on chained clocks is simulated by the integer machine. */
  lemma {:induction false} RunRefines(l: Ladder, b: ChainBoard, cmds: seq<Command>)
    requires ValidBoard(b)
    ensures AbsBoard(Run(l, b, cmds)) == IntegerMachine.Run(Variant(Grouped, l), AbsBoard(b), cmds)
    decreases |cmds|
  {
    if |cmds| > 0 && cmds[0] != Quit {
      NextRefines(l, b, cmds[0]);
      RunRefines(l, Next(l, b, cmds[0]), cmds[1..]);
    }
  }

  /**
    From power-on the chained game keeps the clock invariant: both clocks
    have time left while set up, running or paused, and a win means the
    loser's clock is at zero.
   */
  lemma PowerOnConsistent(l: Ladder, cmds: seq<Command>)
    ensures IntegerMachine.Consistent(AbsBoard(Run(l, PowerOn(), cmds)))
  {
    RunRefines(l, PowerOn(), cmds);
    IntegerMachine.PowerOnConsistent(Variant(Grouped, l), cmds);
  }

  /**
    End to end on chained clocks: after reset and start, `k` single-tenth
    ticks leave White with `InitialTime - k` tenths, and Black wins on the
    18000th tick.
   */
  lemma ResetStartAndRunOut(l: Ladder, k: nat)
    requires l != NoTicks
    ensures var r := Run(l, PowerOn(), [Reset, Start] + IntegerMachine.Repeat(Advance(1), k));
            && Total(r.black) == InitialTime
            && (k < InitialTime ==> r.state == WhiteDraw && Total(r.white) == InitialTime - k)
            && (k >= InitialTime ==> r.state == BlackWins && Total(r.white) == 0)
  {
    var cmds := [Reset, Start] + IntegerMachine.Repeat(Advance(1), k);
    RunRefines(l, PowerOn(), cmds);
    IntegerMachine.ResetStartAndRunOut(Variant(Grouped, l), k);
  }
}
