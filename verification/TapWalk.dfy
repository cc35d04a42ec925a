/** The TAP seeks of jtag/micro.c (xsvfGotoTapState): which TMS levels the player sends to get
    from the state it believes the controller to be in to a target state, and what they do to
    the reference controller. */
module TapWalk {
  import opened Bits
  import opened Tap

  // State codes, as in the XSVF format.
  const RESET := 0
  const RUNTEST := 1
  const SELECTDR := 2
  const CAPTUREDR := 3
  const SHIFTDR := 4
  const EXIT1DR := 5
  const PAUSEDR := 6
  const EXIT2DR := 7
  const UPDATEDR := 8
  const IRSTATES := 9
  const SELECTIR := 9
  const CAPTUREIR := 10
  const SHIFTIR := 11
  const EXIT1IR := 12
  const PAUSEIR := 13
  const EXIT2IR := 14
  const UPDATEIR := 15

  type Code = c: int | 0 <= c < 16

  function StateOf(c: Code): State
  {
    match c
    case 0 => TestLogicReset case 1 => RunTestIdle
    case 2 => SelectDR case 3 => CaptureDR case 4 => ShiftDR case 5 => Exit1DR
    case 6 => PauseDR case 7 => Exit2DR case 8 => UpdateDR
    case 9 => SelectIR case 10 => CaptureIR case 11 => ShiftIR case 12 => Exit1IR
    case 13 => PauseIR case 14 => Exit2IR case 15 => UpdateIR
  }

  /** One turn of the seek loop: the TMS level sent and the state then recorded.  The target
      is the raw byte the command carried; since the recorded state is always one of the
      sixteen codes, a byte that names no state is never met. */
  function Turn(cur: Code, target: byte): (r: (bool, Code))
  {
    match cur
    case 0 => (false, RUNTEST)
    case 1 => (true, SELECTDR)
    case 2 => if target >= IRSTATES then (true, SELECTIR) else (false, CAPTUREDR)
    case 3 => if target == SHIFTDR then (false, SHIFTDR) else (true, EXIT1DR)
    case 4 => (true, EXIT1DR)
    case 5 => if target == PAUSEDR then (false, PAUSEDR) else (true, UPDATEDR)
    case 6 => (true, EXIT2DR)
    case 7 => if target == SHIFTDR then (false, SHIFTDR) else (true, UPDATEDR)
    case 8 => if target == RUNTEST then (false, RUNTEST) else (true, SELECTDR)
    case 9 => (false, CAPTUREIR)
    case 10 => if target == SHIFTIR then (false, SHIFTIR) else (true, EXIT1IR)
    case 11 => (true, EXIT1IR)
    case 12 => if target == PAUSEIR then (false, PAUSEIR) else (true, UPDATEIR)
    case 13 => (true, EXIT2IR)
    case 14 => if target == SHIFTIR then (false, SHIFTIR) else (true, UPDATEIR)
    case 15 => if target == RUNTEST then (false, RUNTEST) else (true, SELECTDR)
  }

  /** The state the player records is the one the reference controller moves to. */
  lemma {:induction false} TurnFollowsTap(cur: Code, target: byte)
    ensures StateOf(Turn(cur, target).1) == Next(StateOf(cur), Turn(cur, target).0)
  {
  }

  /** The paths the player refuses: an Exit2 state other than from its own pause. */
  predicate Illegal(cur: Code, target: byte)
  {
    && target != cur
    && ((target == EXIT2DR && cur != PAUSEDR) || (target == EXIT2IR && cur != PAUSEIR))
  }

  // ----- the seek terminates -----

  /** Turns needed to climb to Select-DR. */
  function Climb(cur: Code): nat
  {
    match cur
    case 0 => 2 case 1 => 1 case 2 => 0 case 3 => 3 case 4 => 3 case 5 => 2 case 6 => 3 case 7 => 2
    case 8 => 1 case 9 => 4 case 10 => 3 case 11 => 3 case 12 => 2 case 13 => 3 case 14 => 2 case 15 => 1
  }

  /** Turns needed within one column (Select 0, Capture 1, Shift 2, Exit1 3, Pause 4, Exit2 5,
      Update 6) when the target lies ahead; 9 when it does not. */
  function Ahead(from: nat, to: nat): nat
  {
    if from == to then 0
    else match from
      case 0 => (match to case 1 => 1 case 2 => 2 case 3 => 2 case 4 => 3 case 6 => 3 case _ => 9)
      case 1 => (match to case 2 => 1 case 3 => 1 case 4 => 2 case 6 => 2 case _ => 9)
      case 2 => (match to case 3 => 1 case 4 => 2 case 6 => 2 case _ => 9)
      case 3 => (match to case 4 => 1 case 6 => 1 case _ => 9)
      case 4 => (match to case 2 => 2 case 5 => 1 case 6 => 2 case _ => 9)
      case 5 => (match to case 2 => 1 case 6 => 1 case _ => 9)
      case _ => 9
  }

  /** The number of turns a seek takes. */
  function Turns(cur: Code, target: Code): nat
  {
    if cur == target then 0
    else if target == RUNTEST then (if cur == RESET then 1 else if cur == SELECTDR then 4 else Climb(cur))
    else if target < IRSTATES then
      (if target == RESET then 0
       else if SELECTDR <= cur <= UPDATEDR && Ahead(cur - 2, target - 2) < 9 then Ahead(cur - 2, target - 2)
       else Climb(cur) + Ahead(0, target - 2))
    else
      (if SELECTIR <= cur && Ahead(cur - 9, target - 9) < 9 then Ahead(cur - 9, target - 9)
       else Climb(cur) + 1 + Ahead(0, target - 9))
  }

  lemma {:induction false} TurnsDecrease(cur: Code, target: Code)
    requires cur != target && target != RESET && !Illegal(cur, target)
    ensures !Illegal(Turn(cur, target).1, target)
    ensures Turns(cur, target) == Turns(Turn(cur, target).1, target) + 1 <= 7
  {
    match cur
    case 0 => case 1 => case 2 => case 3 => case 4 => case 5 => case 6 => case 7 =>
    case 8 => case 9 => case 10 => case 11 => case 12 => case 13 => case 14 => case 15 =>
  }

  // ----- the clocks of a seek -----

  /** The clocks of the seek loop, with a steady TDI. */
  function Seek(cur: Code, target: Code, tdi: bool): (es: seq<Event>)
    requires target != RESET && !Illegal(cur, target)
    decreases Turns(cur, target), 1
  {
    if cur == target then [] else Hop(cur, target, tdi)
  }

  /** The same from a state that is not the target: one turn, then the rest. */
  function Hop(cur: Code, target: Code, tdi: bool): (es: seq<Event>)
    requires target != RESET && !Illegal(cur, target) && cur != target
    decreases Turns(cur, target), 0
  {
    TurnsDecrease(cur, target);
    [Clock(Turn(cur, target).0, tdi)] + Seek(Turn(cur, target).1, target, tdi)
  }

  predicate IsPause(c: Code)
  {
    c == PAUSEDR || c == PAUSEIR
  }

  function Exit2Of(pause: Code): Code
    requires IsPause(pause)
  {
    if pause == PAUSEDR then EXIT2DR else EXIT2IR
  }

  predicate IsShift(c: Code)
  {
    c == SHIFTDR || c == SHIFTIR
  }

  /** The clocks of a whole xsvfGotoTapState call. */
  function Goto(cur: Code, target: Code, tdi: bool): (es: seq<Event>)
  {
    if target == RESET then Ones(6, tdi)
    else if Illegal(cur, target) then []
    else if cur == target && IsPause(target) then [Clock(true, tdi)] + Seek(Exit2Of(target), target, tdi)
    else Seek(cur, target, tdi)
  }

  /** Where the player says the controller is afterwards. */
  function GotoEnd(cur: Code, target: Code): Code
  {
    if target != RESET && Illegal(cur, target) then cur else target
  }

  lemma {:induction false} SeekUnfold(cur: Code, target: Code, tdi: bool)
    requires target != RESET && !Illegal(cur, target) && cur != target
    ensures !Illegal(Turn(cur, target).1, target)
    ensures Seek(cur, target, tdi) == [Clock(Turn(cur, target).0, tdi)] + Seek(Turn(cur, target).1, target, tdi)
  {
  }

  /** Every seek ends within seven clocks. */
  lemma {:induction false} SeekLength(cur: Code, target: Code, tdi: bool)
    requires target != RESET && !Illegal(cur, target)
    ensures |Seek(cur, target, tdi)| == Turns(cur, target) <= 7
    decreases Turns(cur, target)
  {
    if cur != target {
      TurnsDecrease(cur, target);
      SeekLength(Turn(cur, target).1, target, tdi);
    }
  }

  /** The seek takes the reference controller to the target. */
  lemma {:induction false} SeekReaches(cur: Code, target: Code, tdi: bool)
    requires target != RESET && !Illegal(cur, target)
    ensures After(StateOf(cur), Seek(cur, target, tdi)) == StateOf(target)
    decreases Turns(cur, target)
  {
    if cur != target {
      TurnsDecrease(cur, target);
      TurnFollowsTap(cur, target);
      var (t, c) := Turn(cur, target);
      SeekReaches(c, target, tdi);
      AfterCons(StateOf(cur), Clock(t, tdi), Seek(c, target, tdi));
    }
  }

  /** A shift state is always entered with TMS low. */
  lemma {:induction false} TurnIntoShift(cur: Code, target: Code)
    requires Turn(cur, target).1 == target && IsShift(target)
    ensures !Turn(cur, target).0
  {
  }

  lemma {:induction false} ReenterReaches(target: Code, tdi: bool)
    requires IsPause(target)
    ensures After(StateOf(target), Goto(target, target, tdi)) == StateOf(target)
  {
    var e, s := Exit2Of(target), StateOf(target);
    SeekReaches(e, target, tdi);
    assert Step(s, Clock(true, tdi)) == StateOf(e);
    ConsReaches(s, Clock(true, tdi), Seek(e, target, tdi), s);
  }

  lemma {:induction false} ConsReaches(s: State, e: Event, es: seq<Event>, t: State)
    requires After(Step(s, e), es) == t
    ensures After(s, [e] + es) == t
  {
    AfterCons(s, e, es);
  }

  /** From the state the player tracks, the controller arrives where the player says; a seek to
      reset arrives from anywhere. */
  lemma {:induction false} GotoReaches(s: State, cur: Code, target: Code, tdi: bool)
    requires s == StateOf(cur) || target == RESET
    ensures After(s, Goto(cur, target, tdi)) == StateOf(GotoEnd(cur, target))
  {
    if target == RESET {
      OnesReset(s, 6, tdi);
    } else if Illegal(cur, target) {
    } else if cur == target && IsPause(target) {
      ReenterReaches(target, tdi);
    } else {
      SeekReaches(cur, target, tdi);
    }
  }

  // ----- seeks between stable states are shortest -----

  /** The least number of clocks from each state to Run-Test/Idle, and to the shift and pause states. */
  function ToIdle(s: State): nat
  {
    match s
    case TestLogicReset => 1 case RunTestIdle => 0 case SelectDR => 3 case CaptureDR => 3
    case ShiftDR => 3 case Exit1DR => 2 case PauseDR => 3 case Exit2DR => 2 case UpdateDR => 1
    case SelectIR => 2 case CaptureIR => 3 case ShiftIR => 3 case Exit1IR => 2
    case PauseIR => 3 case Exit2IR => 2 case UpdateIR => 1
  }

  function ToShiftDr(s: State): nat
  {
    match s
    case TestLogicReset => 4 case RunTestIdle => 3 case SelectDR => 2 case CaptureDR => 1
    case ShiftDR => 0 case Exit1DR => 3 case PauseDR => 2 case Exit2DR => 1 case UpdateDR => 3
    case SelectIR => 5 case CaptureIR => 5 case ShiftIR => 5 case Exit1IR => 4
    case PauseIR => 5 case Exit2IR => 4 case UpdateIR => 3
  }

  function ToPauseDr(s: State): nat
  {
    match s
    case TestLogicReset => 5 case RunTestIdle => 4 case SelectDR => 3 case CaptureDR => 2
    case ShiftDR => 2 case Exit1DR => 1 case PauseDR => 0 case Exit2DR => 3 case UpdateDR => 4
    case SelectIR => 6 case CaptureIR => 6 case ShiftIR => 6 case Exit1IR => 5
    case PauseIR => 6 case Exit2IR => 5 case UpdateIR => 4
  }

  function ToShiftIr(s: State): nat
  {
    match s
    case TestLogicReset => 5 case RunTestIdle => 4 case SelectDR => 3 case CaptureDR => 6
    case ShiftDR => 6 case Exit1DR => 5 case PauseDR => 6 case Exit2DR => 5 case UpdateDR => 4
    case SelectIR => 2 case CaptureIR => 1 case ShiftIR => 0 case Exit1IR => 3
    case PauseIR => 2 case Exit2IR => 1 case UpdateIR => 4
  }

  function ToPauseIr(s: State): nat
  {
    match s
    case TestLogicReset => 6 case RunTestIdle => 5 case SelectDR => 4 case CaptureDR => 7
    case ShiftDR => 7 case Exit1DR => 6 case PauseDR => 7 case Exit2DR => 6 case UpdateDR => 5
    case SelectIR => 3 case CaptureIR => 2 case ShiftIR => 2 case Exit1IR => 1
    case PauseIR => 0 case Exit2IR => 3 case UpdateIR => 5
  }

  predicate Stable(c: Code)
  {
    c == RUNTEST || IsShift(c) || IsPause(c)
  }

  function Fewest(s: State, target: Code): nat
    requires Stable(target)
  {
    if target == RUNTEST then ToIdle(s) else if target == SHIFTDR then ToShiftDr(s)
        else if target == PAUSEDR then ToPauseDr(s)
    else if target == SHIFTIR then ToShiftIr(s) else ToPauseIr(s)
  }

  lemma {:induction false} OneFewer(s: State, tms: bool, target: Code)
    requires Stable(target)
    ensures Fewest(s, target) <= Fewest(Next(s, tms), target) + 1
    ensures Fewest(s, target) == 0 <==> s == StateOf(target)
  {
  }

  lemma {:induction false} NoneFewer(s: State, es: seq<Event>, target: Code)
    requires Stable(target) && After(s, es) == StateOf(target) && forall i | 0 <= i < |es| :: es[i].Clock?
    ensures |es| >= Fewest(s, target)
    decreases |es|
  {
    if es == [] {
      OneFewer(s, false, target);
    } else {
      assert es == [es[0]] + es[1..];
      AfterCons(s, es[0], es[1..]);
      OneFewer(s, es[0].tms, target);
      NoneFewer(Step(s, es[0]), es[1..], target);
    }
  }

  lemma {:induction false} TurnsFewest(cur: Code, target: Code)
    requires Stable(target) && (Stable(cur) || cur == RESET)
    ensures Turns(cur, target) == Fewest(StateOf(cur), target)
  {
  }

  /** A seek from one stable state to another takes no more clocks than any other way. */
  lemma {:induction false} SeekShortest(cur: Code, target: Code, tdi: bool, es: seq<Event>)
    requires Stable(target) && (Stable(cur) || cur == RESET)
    requires After(StateOf(cur), es) == StateOf(target) && forall i | 0 <= i < |es| :: es[i].Clock?
    ensures |Seek(cur, target, tdi)| <= |es|
  {
    SeekLength(cur, target, tdi);
    TurnsFewest(cur, target);
    NoneFewer(StateOf(cur), es, target);
  }
}
