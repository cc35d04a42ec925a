/** What an XSVF stream means: the player of jtag/micro.c as a function of the stream, of the pins it starts
    from and of what the device answers, without its buffers and loops. */
module XsvfMeaning {
  import opened Bits
  import opened Tap
  import opened TapWalk
  import opened LenVals
  import opened Masking
  import opened Shifter
  import opened XsvfFormat
  import opened Scans

  /** All that decides how the player goes on: its place in the stream, the pins, whether it has stopped, the
      parameters that commands set, and the values that later commands use again. */
  datatype View = View(pos: nat, line: Line, err: int, complete: bool,
                       endIR: Code, endDR: Code, repeat: byte, time: nat, bits: nat,
                       captured: seq<byte>, expected: seq<byte>, expectedLen: nat,
                       mask: seq<byte>, address: seq<byte>, dataMask: seq<byte>, masked: bool)
  {
    /** The number of bytes of a data register value. */
    function Size(): nat
    {
      NumBytes(bits)
    }

    function Frame(): Frame
    {
      XsvfFormat.Frame(Size(), dataMask, masked)
    }

    predicate Stopped()
    {
      err != ERROR_NONE || complete
    }
  }

  /** A buffer after reading a value into it. */
  function Over(value: seq<byte>, was: seq<byte>): seq<byte>
  {
    value + if |value| <= |was| then was[|value|..] else []
  }

  function Front(s: seq<byte>, n: nat): seq<byte>
  {
    if n <= |s| then s[..n] else s
  }

  function Rest(s: seq<byte>, n: nat): seq<byte>
  {
    if n <= |s| then s[n..] else []
  }

  // ----- commands that only set parameters -----

  function TdoMask(data: seq<byte>, v: View): View
  {
    v.(pos := v.pos + v.Size(), mask := Over(Taken(data, v.pos, v.Size()), v.mask))
  }

  function RunTest(data: seq<byte>, v: View): View
  {
    v.(pos := v.pos + 4, time := BytesValue(Taken(data, v.pos, 4)))
  }

  function Repeat(data: seq<byte>, v: View): View
  {
    v.(pos := v.pos + 1, repeat := At(data, v.pos))
  }

  /** Only counts that leave the short positive are refused for being too long. */
  function SdrSize(data: seq<byte>, v: View): View
  {
    var n := BytesValue(Taken(data, v.pos, 4));
    v.(pos := v.pos + 4, bits := n,
       err := if MAX_LEN < NumBytes(n) % 0x1_0000 < 0x8000 then ERROR_DATAOVERFLOW else v.err)
  }

  function SetMasks(data: seq<byte>, v: View): View
  {
    v.(pos := v.pos + 2 * v.Size(), masked := true,
       address := Over(Taken(data, v.pos, v.Size()), v.address),
       dataMask := Taken(data, v.pos + v.Size(), v.Size()))
  }

  function SetEnd(data: seq<byte>, v: View, ir: bool): View
  {
    var w, end := v.(pos := v.pos + 1), At(data, v.pos);
    if end > 1 then w.(err := ERROR_ILLEGALSTATE)
    else if ir then w.(endIR := if end == 0 then RUNTEST else PAUSEIR)
    else w.(endDR := if end == 0 then RUNTEST else PAUSEDR)
  }

  // ----- commands that only move the controller -----

  function Sought(line: Line, target: Code): Line
  {
    Line(line.events + Goto(line.at, target, line.tdi), GotoEnd(line.at, target), line.tdi)
  }

  /** A seek that is made only if the controller is not there already. */
  function Visited(line: Line, target: Code): Line
  {
    if line.at == target then line else Sought(line, target)
  }

  function State(data: seq<byte>, v: View): View
    requires At(data, v.pos) < 16
  {
    var target: Code := At(data, v.pos);
    v.(pos := v.pos + 1, line := Sought(v.line, target),
       err := if target != RESET && Illegal(v.line.at, target) then ERROR_ILLEGALSTATE else v.err)
  }

  function Wait(data: seq<byte>, v: View): View
    requires At(data, v.pos) < 16 && At(data, v.pos + 1) < 16
  {
    var time := BytesValue(Taken(data, v.pos + 2, 4));
    v.(pos := v.pos + 6, line := Visited(Paused(Visited(v.line, At(data, v.pos)), time), At(data, v.pos + 1)))
  }

  function Paused(line: Line, time: nat): Line
  {
    line.(events := line.events + [Event.Wait(time)])
  }

  // ----- commands that shift -----

  /** A shift from where the pins are. */
  function RunFrom(line: Line, tdo: seq<Event> -> bool, job: Job, goal: Option<Expect>, bytes: seq<byte>): Run
  {
    Run(job, tdo, line.events, line.at, line.tdi, goal, bytes)
  }

  /** The player after a shift; a shift that is told to captures what it reads. */
  ghost function Shot(v: View, run: Run, repeat: byte, keep: bool): (w: View)
    ensures w.pos == v.pos && w.Frame() == v.Frame() && w.complete == v.complete
  {
    var o := run.Result(repeat, v.captured);
    v.(line := Line(o.events, o.at, o.tdi), err := if o.err != ERROR_NONE then o.err else v.err,
       captured := if keep then o.captured else v.captured)
  }

  /** An instruction of n bits, which start at p. */
  ghost function Instruction(data: seq<byte>, tdo: seq<Event> -> bool, v: View, n: nat, p: nat): (w: View)
    ensures w.pos == p + NumBytes(n) && w.Frame() == v.Frame() && w.complete == v.complete
  {
    var bytes := Taken(data, p, NumBytes(n));
    var job := Job(SHIFTIR, v.endIR, LowBits(bytes, n), v.time);
    Shot(v.(pos := p + NumBytes(n)), RunFrom(v.line, tdo, job, None, bytes), 0, false)
  }

  ghost function Sir(data: seq<byte>, tdo: seq<Event> -> bool, v: View): View
  {
    Instruction(data, tdo, v, At(data, v.pos), v.pos + 1)
  }

  ghost function Sir2(data: seq<byte>, tdo: seq<Event> -> bool, v: View): View
  {
    IfFits(data, tdo, v, BytesValue(Taken(data, v.pos, 2)), v.pos + 2)
  }

  ghost function IfFits(data: seq<byte>, tdo: seq<Event> -> bool, v: View, n: nat, p: nat): View
  {
    if NumBytes(n) > MAX_LEN then v.(pos := p, err := ERROR_DATAOVERFLOW) else Instruction(data, tdo, v, n, p)
  }

  /** What an answer is compared with: the last expected value under a mask, next to what an older, longer
      capture left behind. */
  function Goal(v: View, mask: seq<byte>): Expect
  {
    Expect(v.expected, v.expectedLen, mask, Rest(v.captured, v.Size()))
  }

  /** A data register value. */
  ghost function Data(tdo: seq<Event> -> bool, v: View, bytes: seq<byte>, goal: Option<Expect>, end: Code, time: nat,
                      repeat: byte): (w: View)
    requires v.bits <= 8 * |bytes|
    ensures w.pos == v.pos && w.Frame() == v.Frame() && w.complete == v.complete
  {
    var job := Job(SHIFTDR, end, LowBits(bytes, v.bits), time);
    Shot(v, RunFrom(v.line, tdo, job, goal, bytes), repeat, goal.Some?)
  }

  /** The player after reading a data register value. */
  function Past(v: View): View
  {
    v.(pos := v.pos + v.Size())
  }

  /** XSDRB and XSDRC stay in Shift-DR, XSDRE leaves it. */
  ghost function Part(data: seq<byte>, tdo: seq<Event> -> bool, v: View, last: bool): View
  {
    Data(tdo, Past(v), Taken(data, v.pos, v.Size()), None, if last then v.endDR else SHIFTDR, 0, 0)
  }

  /** So a part is one scan of its bits. */
  lemma {:induction false} PartScans(data: seq<byte>, tdo: seq<Event> -> bool, v: View, last: bool)
    ensures Part(data, tdo, v, last).err == v.err
    ensures Part(data, tdo, v, last).line
         == Scanned(v.line, LowBits(Taken(data, v.pos, v.Size()), v.bits), if last then v.endDR else SHIFTDR)
  {
    var bytes, end := Taken(data, v.pos, v.Size()), if last then v.endDR else SHIFTDR;
    var run := RunFrom(v.line, tdo, Job(SHIFTDR, end, LowBits(bytes, v.bits), 0), None, bytes);
    ResultScans(run, v.captured);
  }

  lemma {:induction false} ResultScans(run: Run, was: seq<byte>)
    requires run.goal.None? && !run.job.Waits() && run.job.start == SHIFTDR
    ensures var o := run.Result(0, was);
            o.err == ERROR_NONE &&
                Line(o.events, o.at, o.tdi) == Scanned(Line(run.es, run.from, run.tdi), run.job.bits, run.job.end)
  {
    if run.job.bits != [] {
      var line := Line(run.Events(1, true), run.job.Settled(), run.job.LastBit());
      EndsOnce(run);
      OutcomeIs(run, 1, 0, ERROR_NONE, line.events, line.at, line.tdi, was);
      ScannedOnce(run, 1, ERROR_NONE, line);
    } else {
      NoMore(run.es);
    }
  }

  /** A value compared with the last expected one under the mask. */
  ghost function Sdr(data: seq<byte>, tdo: seq<Event> -> bool, v: View): View
  {
    Data(tdo, Past(v), Taken(data, v.pos, v.Size()), Some(Goal(Past(v), v.mask)), v.endDR, v.time, v.repeat)
  }

  /** The expected value is read after the value to send. */
  function Expecting(data: seq<byte>, v: View): View
  {
    v.(pos := v.pos + 2 * v.Size(), expected := Over(Taken(data, v.pos + v.Size(), v.Size()), v.expected),
       expectedLen := v.Size())
  }

  ghost function SdrTdo(data: seq<byte>, tdo: seq<Event> -> bool, v: View): View
  {
    var u := Expecting(data, v);
    Data(tdo, u, Taken(data, v.pos, v.Size()), Some(Goal(u, u.mask)), v.endDR, v.time, v.repeat)
  }

  ghost function TdoPart(data: seq<byte>, tdo: seq<Event> -> bool, v: View, last: bool): View
  {
    var u := Expecting(data, v);
    Data(tdo, u, Taken(data, v.pos, v.Size()), Some(Goal(u, MaskBytes(null))), if last then v.endDR else SHIFTDR, 0, 0)
  }

  // ----- XSDRINC -----

  /** The values that an XSDRINC command sends. */
  function Values(data: seq<byte>, v: View): Increment
  {
    Increment(Taken(data, v.pos, v.Size()), Front(v.address, v.Size()), v.dataMask, data, v.pos + v.Size() + 1)
  }

  /** The player after the shift of value number k, unless one before it failed; the pieces of data are read
      one before each shift but the first. */
  ghost function IncrementTo(tdo: seq<Event> -> bool, inc: Increment, v: View, k: nat): View
    requires inc.Valid()
    decreases k, 0
  {
    if k == 0 then IncrementBy(tdo, inc, v.(pos := v.pos + |inc.first|), 0)
    else IncrementAfter(tdo, inc, v, k - 1)
  }

  ghost function IncrementAfter(tdo: seq<Event> -> bool, inc: Increment, v: View, k: nat): View
    requires inc.Valid()
    decreases k, 1
  {
    var u := IncrementTo(tdo, inc, v, k);
    if u.err != ERROR_NONE then u
    else IncrementBy(tdo, inc, u.(pos := PiecesEnd(inc.pos, NumBytes(Popcount(inc.mask)), k + 1)), k + 1)
  }

  ghost function IncrementBy(tdo: seq<Event> -> bool, inc: Increment, v: View, k: nat): View
    requires inc.Valid()
  {
    if v.bits > 8 * |inc.first| then v
    else Data(tdo, v, inc.Value(k), Some(Goal(v, v.mask)), v.endDR, v.time, v.repeat)
  }

  lemma {:induction false} IncrementNext(tdo: seq<Event> -> bool, inc: Increment, v: View, k: nat)
    requires inc.Valid() && IncrementTo(tdo, inc, v, k).err == ERROR_NONE
    ensures IncrementTo(tdo, inc, v, k + 1)
         == IncrementBy(tdo, inc,
             IncrementTo(tdo, inc, v, k).(pos := PiecesEnd(inc.pos, NumBytes(Popcount(inc.mask)), k + 1)),
                        k + 1)
  {
    assert IncrementTo(tdo, inc, v, k + 1) == IncrementAfter(tdo, inc, v, k);
  }

  ghost function SdrInc(data: seq<byte>, tdo: seq<Event> -> bool, v: View): View
    requires Values(data, v).Valid()
  {
    Incremented(tdo, Values(data, v), v, At(data, v.pos + v.Size()))
  }

  /** All shifts; if there are no pieces of data, at least their number has been read. */
  ghost function Incremented(tdo: seq<Event> -> bool, inc: Increment, v: View, times: nat): View
    requires inc.Valid()
  {
    var w := IncrementTo(tdo, inc, v, times);
    if times == 0 && w.err == ERROR_NONE then w.(pos := inc.pos) else w
  }

  // ----- whole streams -----

  /** The commands that shift once through the data register; that shift through the instruction register, or
      several times; and that do not shift. */
  predicate IsData(c: byte)
  {
    c == XSDR || c == XSDRTDO || XSDRB <= c <= XSDRTDOE
  }

  predicate IsChain(c: byte)
  {
    c == XSIR || c == XSIR2 || c == XSDRINC
  }

  predicate IsPlain(c: byte)
  {
    || c == XTDOMASK || c == XRUNTEST || c == XREPEAT || c == XSDRSIZE || c == XSETSDRMASKS
    || c == XSTATE || c == XENDIR || c == XENDDR || c == XCOMMENT || c == XWAIT
  }

  /** One command whose parameters start at the player's place.  Malformed parameters have no meaning; here
      they stop the player. */
  ghost function Meaning(data: seq<byte>, tdo: seq<Event> -> bool, c: byte, v: View): View
  {
    if c == XCOMPLETE then v.(complete := true)
    else if Params(data, c, v.pos, v.Frame()).Malformed? then v.(err := ERROR_ILLEGALCMD)
    else if IsChain(c) then ChainMeaning(data, tdo, c, v)
    else if IsData(c) then DataMeaning(data, tdo, c, v)
    else PlainMeaning(data, c, v)
  }

  ghost function ChainMeaning(data: seq<byte>, tdo: seq<Event> -> bool, c: byte, v: View): View
  {
    if c == XSIR then Sir(data, tdo, v)
    else if c == XSIR2 then Sir2(data, tdo, v)
    else if Values(data, v).Valid() then SdrInc(data, tdo, v) else v.(err := ERROR_ILLEGALCMD)
  }

  ghost function DataMeaning(data: seq<byte>, tdo: seq<Event> -> bool, c: byte, v: View): View
  {
    if c == XSDR then Sdr(data, tdo, v)
    else if c == XSDRTDO then SdrTdo(data, tdo, v)
    else if c <= XSDRE then Part(data, tdo, v, c == XSDRE)
    else TdoPart(data, tdo, v, c == XSDRTDOE)
  }

  /** Commands 5 and 6 and those from XLASTCMD on are illegal. */
  function PlainMeaning(data: seq<byte>, c: byte, v: View): View
  {
    if c == XTDOMASK then TdoMask(data, v)
    else if c == XRUNTEST then RunTest(data, v)
    else if c == XREPEAT then Repeat(data, v)
    else if c == XSDRSIZE then SdrSize(data, v)
    else if c == XSETSDRMASKS then SetMasks(data, v)
    else if c == XENDIR || c == XENDDR then SetEnd(data, v, c == XENDIR)
    else if c == XCOMMENT then v.(pos := CommentEnd(data, v.pos))
    else if c == XSTATE && At(data, v.pos) < 16 then State(data, v)
    else if c == XWAIT && At(data, v.pos) < 16 && At(data, v.pos + 1) < 16 then Wait(data, v)
    else v.(err := ERROR_ILLEGALCMD)
  }

  /** The next command, if there is one. */
  ghost function Turn(data: seq<byte>, tdo: seq<Event> -> bool, v: View): View
  {
    if v.Stopped() then v else Meaning(data, tdo, At(data, v.pos), v.(pos := v.pos + 1))
  }

  /** All commands up to the one that stops the player. */
  ghost function Ran(data: seq<byte>, tdo: seq<Event> -> bool, v: View): View
    decreases |data| - v.pos
  {
    var w := Turn(data, tdo, v);
    if w.Stopped() || v.pos >= |data| || w.pos <= v.pos then w else Ran(data, tdo, w)
  }

  /** The player after xsvfInitialize, whatever was set before. */
  function Reset(v: View): View
  {
    v.(line := Line(v.line.events + Goto(RESET, RESET, v.line.tdi), RESET, v.line.tdi), err := ERROR_NONE,
       complete := false, endIR := RUNTEST, endDR := RUNTEST, repeat := 0, time := 0, bits := 0)
  }

  // ----- what a command reads -----

  /** A shift leaves the parameters alone. */
  lemma {:induction false} IncrementReads(tdo: seq<Event> -> bool, inc: Increment, v: View, k: nat)
    requires inc.Valid()
    ensures var w := IncrementTo(tdo, inc, v, k);
            && w.Frame() == v.Frame() && w.complete == v.complete
            && (w.err == ERROR_NONE ==>
                  w.pos == if k == 0 then v.pos + |inc.first| else PiecesEnd(inc.pos, NumBytes(Popcount(inc.mask)), k))
  {
    if k > 0 {
      IncrementReads(tdo, inc, v, k - 1);
      assert IncrementTo(tdo, inc, v, k) == IncrementAfter(tdo, inc, v, k - 1);
    }
  }

  /** The player has read what the format says, unless it has stopped. */
  ghost predicate Reads(data: seq<byte>, c: byte, v: View, w: View)
  {
    !w.Stopped() ==> Params(data, c, v.pos, v.Frame()) == Continues(w.pos, w.Frame())
  }

  lemma {:induction false} PlainReads(data: seq<byte>, c: byte, v: View)
    requires !v.Stopped() && !Params(data, c, v.pos, v.Frame()).Malformed?
    requires IsPlain(c)
    ensures Reads(data, c, v, PlainMeaning(data, c, v))
  {
  }

  lemma {:induction false} DataReads(data: seq<byte>, tdo: seq<Event> -> bool, c: byte, v: View)
    requires IsData(c)
    ensures Reads(data, c, v, DataMeaning(data, tdo, c, v))
  {
  }

  lemma {:induction false} ChainReads(data: seq<byte>, tdo: seq<Event> -> bool, c: byte, v: View)
    requires !Params(data, c, v.pos, v.Frame()).Malformed? && IsChain(c)
    ensures Reads(data, c, v, ChainMeaning(data, tdo, c, v))
  {
    if c == XSIR { SirReads(data, tdo, v); }
    else if c == XSIR2 { Sir2Reads(data, tdo, v); }
    else if Values(data, v).Valid() { IncReads(data, tdo, v); }
  }

  lemma {:induction false} SirReads(data: seq<byte>, tdo: seq<Event> -> bool, v: View)
    ensures Reads(data, XSIR, v, Sir(data, tdo, v))
  {
  }

  lemma {:induction false} Sir2Reads(data: seq<byte>, tdo: seq<Event> -> bool, v: View)
    ensures Reads(data, XSIR2, v, Sir2(data, tdo, v))
  {
  }

  lemma {:induction false} IncReads(data: seq<byte>, tdo: seq<Event> -> bool, v: View)
    requires Values(data, v).Valid() && !Params(data, XSDRINC, v.pos, v.Frame()).Malformed?
    ensures Reads(data, XSDRINC, v, SdrInc(data, tdo, v))
  {
    IncrementReads(tdo, Values(data, v), v, At(data, v.pos + v.Size()));
  }

  /** A command that does not stop the player has read what the format says. */
  lemma {:induction false} MeaningReads(data: seq<byte>, tdo: seq<Event> -> bool, c: byte, v: View)
    requires !v.Stopped() && !Params(data, c, v.pos, v.Frame()).Malformed?
    ensures Reads(data, c, v, Meaning(data, tdo, c, v))
  {
    if IsChain(c) { ChainReads(data, tdo, c, v); }
    else if IsData(c) { DataReads(data, tdo, c, v); }
    else if IsPlain(c) { PlainReads(data, c, v); }
  }

  /** So a turn that does not stop the player moves on, to where the rest of the stream is well formed. */
  lemma {:induction false} TurnReads(data: seq<byte>, tdo: seq<Event> -> bool, v: View)
    requires !v.Stopped() && WellFormed(data, v.pos, v.Frame())
    ensures !Params(data, At(data, v.pos), v.pos + 1, v.Frame()).Malformed?
    ensures var w := Turn(data, tdo, v);
            !w.Stopped() ==> v.pos < w.pos && v.pos < |data| && WellFormed(data, w.pos, w.Frame())
  {
    MeaningReads(data, tdo, At(data, v.pos), v.(pos := v.pos + 1));
    ParamsAdvance(data, At(data, v.pos), v.pos + 1, v.Frame());
  }
}
