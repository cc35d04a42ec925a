/** The XSVF player of jtag/micro.c: the commands, xsvfInitialize, xsvfRun and xsvfExecute. */
module Xsvf {
  import opened Bits
  import opened Tap
  import opened TapWalk
  import opened Ports
  import opened LenVals
  import opened Masking
  import opened Shifter
  import opened XsvfFormat
  import opened Scans
  import M = XsvfMeaning

  /** The XSVF file, read byte by byte. */
  class Input {
    const data: seq<byte>
    var pos: nat

    constructor (data: seq<byte>)
      ensures this.data == data && pos == 0
    {
      this.data, pos := data, 0;
    }

    method ReadByte() returns (b: byte)
      modifies this
      ensures b == At(data, old(pos)) && pos == old(pos) + 1
    {
      b := At(data, pos);
      pos := pos + 1;
    }

    /** readVal */
    method ReadVal(lv: LenVal, n: nat)
      requires lv.Valid() && n <= MAX_LEN
      modifies this, lv
      ensures lv.Valid() && lv.len == n && pos == old(pos) + n
      ensures lv.Bytes() == Taken(data, old(pos), n) && lv.val == M.Over(Taken(data, old(pos), n), old(lv.val))
    {
      lv.len := n;
      ghost var p, was := pos, lv.val;
      for i := 0 to n
        invariant lv.Valid() && lv.len == n && pos == p + i
        invariant lv.val == M.Over(Taken(data, p, i), was)
      {
        var b := ReadByte();
        Append(Taken(data, p, i), was, b);
        lv.val := lv.val[i := b];
      }
    }
  }

  lemma {:induction false} Append(value: seq<byte>, was: seq<byte>, b: byte)
    requires |value| < |was|
    ensures M.Over(value, was)[|value| := b] == M.Over(value + [b], was)
  {
  }

  class Player {
    const driver: TapDriver
    const input: Input
    const tdi: LenVal
    const tdoExpected: LenVal
    const tdoCaptured: LenVal
    const tdoMask: LenVal
    const addressMask: LenVal
    const dataMask: LenVal
    const nextData: LenVal
    var complete: bool
    var command: byte
    var commandCount: nat
    var errorCode: int
    var endIR: Code
    var endDR: Code
    var maxRepeat: byte
    var runTestTime: nat
    var shiftLengthBits: nat
    var shiftLengthBytes: int
    ghost var masked: bool

    ghost predicate Buffers()
      reads tdi, tdoExpected, tdoCaptured, tdoMask, addressMask, dataMask, nextData
    {
      && tdi.Valid() && tdi.id == 0 && tdoExpected.Valid() && tdoExpected.id == 1
      && tdoCaptured.Valid() && tdoCaptured.id == 2 && tdoMask.Valid() && tdoMask.id == 3
      && addressMask.Valid() && addressMask.id == 4 && dataMask.Valid() && dataMask.id == 5
      && nextData.Valid() && nextData.id == 6
    }

    /** What every command relies on and leaves behind while there is no error. */
    ghost predicate Settings()
      reads this
    {
      && (endIR == RUNTEST || endIR == PAUSEIR) && (endDR == RUNTEST || endDR == PAUSEDR)
      && 0 <= shiftLengthBytes == NumBytes(shiftLengthBits) && (errorCode == ERROR_NONE ==> shiftLengthBytes <= MAX_LEN)
    }

    /** The player's state is sound and in step with the reference controller. */
    ghost predicate Good()
      reads this, driver, driver.port, tdi, tdoExpected, tdoCaptured, tdoMask, addressMask, dataMask, nextData
    {
      Buffers() && Settings() && driver.Synced()
    }

    ghost function Now(): Line
      reads this, driver, driver.port
    {
      Line(driver.port.events, driver.tapState, driver.port.tdi)
    }

    /** All that decides how the player goes on. */
    ghost function ViewNow(): M.View
      requires dataMask.Valid()
      reads this, input, driver, driver.port, tdoExpected, tdoCaptured, tdoMask, addressMask, dataMask
    {
      M.View(input.pos, Now(), errorCode, complete, endIR, endDR, maxRepeat, runTestTime, shiftLengthBits,
             tdoCaptured.val, tdoExpected.val, tdoExpected.len, tdoMask.val, addressMask.val, dataMask.Bytes(), masked)
    }

    /** The buffers start empty and zeroed, where the code leaves them uninitialised; all that is used of
        them is that their lengths are valid. */
    constructor (driver: TapDriver, input: Input)
      ensures this.driver == driver && this.input == input && Buffers() && !masked
      ensures fresh(tdi) && fresh(tdoExpected) && fresh(tdoCaptured) && fresh(tdoMask)
      ensures fresh(addressMask) && fresh(dataMask) && fresh(nextData)
    {
      this.driver, this.input := driver, input;
      tdi := new LenVal(0);
      tdoExpected := new LenVal(1);
      tdoCaptured := new LenVal(2);
      tdoMask := new LenVal(3);
      addressMask := new LenVal(4);
      dataMask := new LenVal(5);
      nextData := new LenVal(6);
      complete, command, commandCount, errorCode := false, 0, 0, 0;
      endIR, endDR, maxRepeat, runTestTime, shiftLengthBits, shiftLengthBytes := RUNTEST, RUNTEST, 0, 0, 0, 0;
      masked := false;
    }

    /** xsvfInfoInit and xsvfInitialize: from any power-on state of the controller and the pins,
        the TMS reset sequence brings the controller where the player thinks it is. */
    method Initialize()
      requires Buffers() && driver.port.Valid()
      modifies this, driver, driver.port
      ensures Good() && driver.tapState == RESET && ViewNow() == M.Reset(old(ViewNow()))
    {
      InfoInit();
      errorCode := ResetTap();
    }

    method InfoInit()
      modifies this
      ensures Settings() && errorCode == ERROR_NONE && !complete && commandCount == 0
      ensures masked == old(masked) && shiftLengthBits == 0 && maxRepeat == 0 && runTestTime == 0
      ensures endIR == endDR == RUNTEST
    {
      complete, command, commandCount, errorCode := false, XCOMPLETE, 0, ERROR_NONE;
      maxRepeat, endIR, endDR := 0, RUNTEST, RUNTEST;
      shiftLengthBits, shiftLengthBytes, runTestTime := 0, 0, 0;
    }

    /** From any state of the controller, whatever the player takes it to be. */
    method ResetTap() returns (err: int)
      requires driver.port.Valid()
      modifies driver, driver.port
      ensures driver.Synced() && driver.tapState == RESET && err == ERROR_NONE &&
              driver.port.tdi == old(driver.port.tdi)
      ensures driver.port.events == old(driver.port.events) + Goto(RESET, RESET, driver.port.tdi)
    {
      driver.tapState := RESET;
      ghost var port := driver.port;
      GotoReaches(After(port.powerOn, port.events), RESET, RESET, port.tdi);
      AfterConcat(port.powerOn, port.events, Goto(RESET, RESET, port.tdi));
      err := driver.GotoTapState(RESET);
    }

    method SetError(err: int)
      modifies this`errorCode
      ensures errorCode == if err != ERROR_NONE then err else old(errorCode)
    {
      if err != ERROR_NONE { errorCode := err; }
    }

    // ----- commands that only set parameters -----

    method DoXTDOMASK()
      requires Good() && errorCode == ERROR_NONE
      modifies tdoMask, input
      ensures Good() && ViewNow() == M.TdoMask(input.data, old(ViewNow()))
    {
      input.ReadVal(tdoMask, shiftLengthBytes);
    }

    method DoXRUNTEST()
      requires Good()
      modifies this`runTestTime, tdi, input
      ensures Good() && ViewNow() == M.RunTest(input.data, old(ViewNow()))
    {
      input.ReadVal(tdi, 4);
      runTestTime := tdi.Value();
    }

    method DoXREPEAT()
      requires Good()
      modifies this`maxRepeat, input
      ensures Good() && ViewNow() == M.Repeat(input.data, old(ViewNow()))
    {
      maxRepeat := input.ReadByte();
    }

    /** xsvfDoXSDRSIZE.  The byte count passes through a short, so only counts that leave it positive
        are refused for being too long. */
    method DoXSDRSIZE()
      requires Good() && errorCode == ERROR_NONE
      modifies this`shiftLengthBits, this`shiftLengthBytes, this`errorCode, tdi, input
      ensures Buffers() && driver.Synced() && shiftLengthBytes == ToShort(NumBytes(shiftLengthBits))
      ensures ViewNow() == M.SdrSize(input.data, old(ViewNow()))
      ensures NumBytes(shiftLengthBits) < 0x8000 ==> Good()
    {
      input.ReadVal(tdi, 4);
      shiftLengthBits := tdi.Value();
      shiftLengthBytes := ToShort(NumBytes(shiftLengthBits));
      ShortAbove(NumBytes(shiftLengthBits), MAX_LEN);
      if shiftLengthBytes > MAX_LEN { errorCode := ERROR_DATAOVERFLOW; }
    }

    method DoXSETSDRMASKS()
      requires Good() && errorCode == ERROR_NONE
      modifies this`masked, addressMask, dataMask, input
      ensures Good() && ViewNow() == M.SetMasks(input.data, old(ViewNow()))
    {
      input.ReadVal(addressMask, shiftLengthBytes);
      input.ReadVal(dataMask, shiftLengthBytes);
      masked := true;
    }

    /** xsvfDoXENDXR */
    method DoXENDXR()
      requires Good() && errorCode == ERROR_NONE
      modifies this`endIR, this`endDR, this`errorCode, input
      ensures Good() && ViewNow() == M.SetEnd(input.data, old(ViewNow()), command == XENDIR)
    {
      var end := input.ReadByte();
      if end != 0 && end != 1 {
        errorCode := ERROR_ILLEGALSTATE;
      } else if command == XENDIR {
        endIR := if end == 0 then RUNTEST else PAUSEIR;
      } else {
        endDR := if end == 0 then RUNTEST else PAUSEDR;
      }
    }

    /** xsvfDoXCOMMENT: skip to the terminating zero byte. */
    method DoXCOMMENT()
      requires Good() && errorCode == ERROR_NONE && CommentEnd(input.data, input.pos) != 0
      modifies this`errorCode, input
      ensures Good() && ViewNow() == old(ViewNow()).(pos := CommentEnd(input.data, old(input.pos)))
    {
      var text := input.ReadByte();
      while text != 0
        invariant Good() && 0 < input.pos <= |input.data| && text == input.data[input.pos - 1]
        invariant CommentEnd(input.data, input.pos - 1) == CommentEnd(input.data, old(input.pos)) != 0
        decreases |input.data| - input.pos
      {
        text := input.ReadByte();
      }
      errorCode := ERROR_NONE;
    }

    // ----- commands that only move the controller -----

    /** A seek by the player keeps it in step. */
    method Seek(target: Code) returns (err: int)
      requires Good()
      modifies driver, driver.port
      ensures Good() && ViewNow() == old(ViewNow()).(line := M.Sought(old(Now()), target))
      ensures err == if target != RESET && Illegal(old(driver.tapState), target) then ERROR_ILLEGALSTATE else ERROR_NONE
    {
      ghost var port, from := driver.port, driver.tapState;
      GotoReaches(StateOf(from), from, target, port.tdi);
      AfterConcat(port.powerOn, port.events, Goto(from, target, port.tdi));
      err := driver.GotoTapState(target);
    }

    method SeekUnlessThere(target: Code)
      requires Good()
      modifies driver, driver.port
      ensures Good() && ViewNow() == old(ViewNow()).(line := M.Visited(old(Now()), target))
    {
      if driver.tapState != target { var _ := Seek(target); }
    }

    method DoXSTATE()
      requires Good() && errorCode == ERROR_NONE && At(input.data, input.pos) < 16
      modifies this`errorCode, driver, driver.port, input
      ensures Good() && ViewNow() == M.State(input.data, old(ViewNow()))
    {
      var next := input.ReadByte();
      var err := Seek(next);
      SetError(err);
    }

    method DoXWAIT()
      requires Good() && errorCode == ERROR_NONE
      requires At(input.data, input.pos) < 16 && At(input.data, input.pos + 1) < 16
      modifies driver, driver.port, tdi, input
      ensures Good() && ViewNow() == M.Wait(input.data, old(ViewNow()))
    {
      var waitState, endState, waitTime := ReadWait();
      Visit(waitState, waitTime, endState);
    }

    method ReadWait() returns (waitState: byte, endState: byte, waitTime: nat)
      requires Good()
      modifies tdi, input
      ensures Good() && ViewNow() == old(ViewNow()).(pos := old(input.pos) + 6)
      ensures waitState == At(input.data, old(input.pos)) && endState == At(input.data, old(input.pos) + 1)
      ensures waitTime == BytesValue(Taken(input.data, old(input.pos) + 2, 4))
    {
      waitState := input.ReadByte();
      endState := input.ReadByte();
      input.ReadVal(tdi, 4);
      waitTime := tdi.Value();
    }

    method Visit(waitState: Code, waitTime: nat, endState: Code)
      requires Good()
      modifies driver, driver.port
      ensures Good()
      ensures ViewNow()
           == old(ViewNow()).(line := M.Visited(M.Paused(M.Visited(old(Now()), waitState), waitTime), endState))
    {
      SeekUnlessThere(waitState);
      WaitThere(waitTime);
      SeekUnlessThere(endState);
    }

    method WaitThere(waitTime: nat)
      requires Good()
      modifies driver.port
      ensures Good() && ViewNow() == old(ViewNow()).(line := M.Paused(old(Now()), waitTime))
    {
      AfterSnoc(driver.port.powerOn, driver.port.events, Event.Wait(waitTime));
      driver.port.WaitTime(waitTime);
    }

    // ----- commands that shift -----

    /** The call of xsvfShift that all data register commands make. */
    method ShiftData(captured: LenVal?, expected: LenVal?, mask: LenVal?, end: Code, wait: nat, repeat: byte,
                     ghost goal: Option<Expect>)
      requires Good() && errorCode == ERROR_NONE && tdi.len == shiftLengthBytes
      requires end == RUNTEST || end == PAUSEDR || end == SHIFTDR
      requires captured == expected == null || (captured == tdoCaptured && expected == tdoExpected)
      requires mask == null || mask == tdoMask
      requires goal == driver.GoalOf(captured, expected, mask, tdi.len)
      modifies this`errorCode, driver, driver.port, captured
      ensures Good()
      ensures ViewNow() == M.Data(driver.port.tdo, old(ViewNow()), tdi.Bytes(), goal, end, wait, repeat)
    {
      ghost var v := ViewNow();
      ghost var run;
      var err;
      err, run := driver.ShiftResult(SHIFTDR, shiftLengthBits, tdi, captured, expected, mask, end, wait, repeat,
                                     v.captured);
      SetError(err);
      assert ViewNow() == M.Shot(v, run, repeat, goal.Some?);
    }

    /** The call of xsvfShift that both instruction register commands make. */
    method ShiftInstruction(n: nat)
      requires Good() && errorCode == ERROR_NONE && tdi.len == NumBytes(n)
      modifies this`errorCode, driver, driver.port
      ensures Good() && errorCode == ERROR_NONE
      ensures var job := Job(SHIFTIR, endIR, LowBits(tdi.Bytes(), n), runTestTime);
              var run := M.RunFrom(old(Now()), driver.port.tdo, job, None, tdi.Bytes());
              ViewNow() == M.Shot(old(ViewNow()), run, 0, false)
    {
      ghost var v := ViewNow();
      ghost var run;
      var err;
      err, run := driver.ShiftResult(SHIFTIR, n, tdi, null, null, null, endIR, runTestTime, 0, v.captured);
      SetError(err);
      assert ViewNow() == M.Shot(v, run, 0, false);
    }

    /** The instruction itself, whose length has been read. */
    method PlayInstruction(n: nat, ghost v: M.View)
      requires Good() && errorCode == ERROR_NONE && NumBytes(n) <= MAX_LEN && ViewNow() == v.(pos := input.pos)
      modifies this`errorCode, driver, driver.port, tdi, input
      ensures Good() && errorCode == ERROR_NONE
      ensures ViewNow() == M.Instruction(input.data, driver.port.tdo, v, n, old(input.pos))
    {
      input.ReadVal(tdi, NumBytes(n));
      ShiftInstruction(n);
    }

    method DoXSIR()
      requires Good() && errorCode == ERROR_NONE
      modifies this`errorCode, driver, driver.port, tdi, input
      ensures Good() && errorCode == ERROR_NONE && ViewNow() == M.Sir(input.data, driver.port.tdo, old(ViewNow()))
    {
      ghost var v := ViewNow();
      var bits := input.ReadByte();
      PlayInstruction(bits, v);
    }

    /** xsvfDoXSIR2: as XSIR, with a length of two bytes. */
    method DoXSIR2()
      requires Good() && errorCode == ERROR_NONE
      modifies this`errorCode, driver, driver.port, tdi, input
      ensures Good() && ViewNow() == M.Sir2(input.data, driver.port.tdo, old(ViewNow()))
    {
      ghost var v := ViewNow();
      input.ReadVal(tdi, 2);
      var bits := tdi.Value();
      PlayIfFits(bits, v);
    }

    method PlayIfFits(n: nat, ghost v: M.View)
      requires Good() && errorCode == ERROR_NONE && ViewNow() == v.(pos := input.pos)
      modifies this`errorCode, driver, driver.port, tdi, input
      ensures Good() && ViewNow() == M.IfFits(input.data, driver.port.tdo, v, n, old(input.pos))
    {
      if NumBytes(n) > MAX_LEN { errorCode := ERROR_DATAOVERFLOW; } else { PlayInstruction(n, v); }
    }

    method DoXSDR()
      requires Good() && errorCode == ERROR_NONE
      modifies this`errorCode, driver, driver.port, tdi, tdoCaptured, input
      ensures Good() && ViewNow() == M.Sdr(input.data, driver.port.tdo, old(ViewNow()))
    {
      ReadTdi();
      ShiftData(tdoCaptured, tdoExpected, tdoMask, endDR, runTestTime, maxRepeat, Some(M.Goal(ViewNow(), tdoMask.val)));
    }

    /** The TDI value. */
    method ReadTdi()
      requires Good() && errorCode == ERROR_NONE
      modifies tdi, input
      ensures Good() && tdi.len == shiftLengthBytes &&
              tdi.Bytes() == Taken(input.data, old(input.pos), shiftLengthBytes)
      ensures ViewNow() == M.Past(old(ViewNow()))
    {
      input.ReadVal(tdi, shiftLengthBytes);
    }

    /** The TDI value and the expected TDO value. */
    method ReadBoth()
      requires Good() && errorCode == ERROR_NONE
      modifies tdi, tdoExpected, input
      ensures Good() && tdi.len == shiftLengthBytes &&
              tdi.Bytes() == Taken(input.data, old(input.pos), shiftLengthBytes)
      ensures ViewNow() == M.Expecting(input.data, old(ViewNow()))
    {
      ReadTdi();
      input.ReadVal(tdoExpected, shiftLengthBytes);
    }

    /** xsvfDoXSDRTDO: as XSDR, with the expected value read from the stream too. */
    method DoXSDRTDO()
      requires Good() && errorCode == ERROR_NONE
      modifies this`errorCode, driver, driver.port, tdi, tdoExpected, tdoCaptured, input
      ensures Good() && ViewNow() == M.SdrTdo(input.data, driver.port.tdo, old(ViewNow()))
    {
      ReadBoth();
      ShiftData(tdoCaptured, tdoExpected, tdoMask, endDR, runTestTime, maxRepeat, Some(M.Goal(ViewNow(), tdoMask.val)));
    }

    /** xsvfDoXSDRBCE: XSDRB and XSDRC stay in Shift-DR, XSDRE leaves it; no wait, no comparison. */
    method DoXSDRBCE()
      requires Good() && errorCode == ERROR_NONE
      modifies this`errorCode, driver, driver.port, tdi, input
      ensures Good() && ViewNow() == M.Part(input.data, driver.port.tdo, old(ViewNow()), command == XSDRE)
    {
      ReadTdi();
      ShiftData(null, null, null, if command == XSDRE then endDR else SHIFTDR, 0, 0, None);
    }

    /** xsvfDoXSDRTDOBCE: the same with a comparison, without mask or retries. */
    method DoXSDRTDOBCE()
      requires Good() && errorCode == ERROR_NONE
      modifies this`errorCode, driver, driver.port, tdi, tdoExpected, tdoCaptured, input
      ensures Good() && ViewNow() == M.TdoPart(input.data, driver.port.tdo, old(ViewNow()), command == XSDRTDOE)
    {
      ReadBoth();
      ShiftData(tdoCaptured, tdoExpected, null, if command == XSDRTDOE then endDR else SHIFTDR, 0, 0,
                Some(M.Goal(ViewNow(), MaskBytes(null))));
    }

    // ----- XSDRINC -----

    /** The values of XSDRINC have the current length and so has TDI, and the masks are the player's. */
    ghost predicate Fits(inc: Increment)
      reads this, input, driver, driver.port, tdi, tdoExpected, tdoCaptured, tdoMask, addressMask, dataMask, nextData
    {
      && Good() && inc.Valid() && |inc.first| == shiftLengthBytes == tdi.len <= 255
      && addressMask.val[..shiftLengthBytes] == inc.address && dataMask.Bytes() == inc.mask && input.data == inc.data
    }

    /** TDI holds value number k. */
    ghost predicate Holding(inc: Increment, k: nat)
      reads this, input, driver, driver.port, tdi, tdoExpected, tdoCaptured, tdoMask, addressMask, dataMask, nextData
    {
      Fits(inc) && tdi.Bytes() == inc.Value(k)
    }

    /** The shift with the player's settings that XSDRINC makes for each TDI value. */
    method ShiftValue(ghost inc: Increment, ghost k: nat)
      requires Holding(inc, k) && errorCode == ERROR_NONE
      modifies this`errorCode, driver, driver.port, tdoCaptured
      ensures Holding(inc, k) && ViewNow() == M.IncrementBy(driver.port.tdo, inc, old(ViewNow()), k)
    {
      ShiftData(tdoCaptured, tdoExpected, tdoMask, endDR, runTestTime, maxRepeat, Some(M.Goal(ViewNow(), tdoMask.val)));
    }

    /** The next TDI value. */
    method NextValue(bits: nat, ghost inc: Increment, ghost k: nat)
      requires Holding(inc, k) && errorCode == ERROR_NONE
      requires bits == Popcount(inc.mask) && input.pos == PiecesEnd(inc.pos, NumBytes(bits), k)
      modifies tdi, nextData, input
      ensures Holding(inc, k + 1)
      ensures ViewNow() == old(ViewNow()).(pos := PiecesEnd(inc.pos, NumBytes(bits), k + 1))
    {
      PopcountRange(inc.mask);
      input.ReadVal(nextData, NumBytes(bits));
      DoSDRMasking(tdi, nextData, addressMask, dataMask);
      assert inc.Value(k + 1) == inc.ValueAfter(k);
    }

    /** xsvfDoXSDRINC */
    method DoXSDRINC()
      requires Good() && errorCode == ERROR_NONE && dataMask.len == shiftLengthBytes <= 255
      modifies this`errorCode, driver, driver.port, tdi, tdoCaptured, nextData, input
      ensures Good() && M.Values(input.data, old(ViewNow())).Valid()
      ensures ViewNow() == M.SdrInc(input.data, driver.port.tdo, old(ViewNow()))
    {
      ghost var v := ViewNow();
      ReadTdi();
      SendValues(M.Values(input.data, v), v);
    }

    method SendValues(ghost inc: Increment, ghost v: M.View)
      requires Holding(inc, 0) && errorCode == ERROR_NONE
      requires ViewNow() == v.(pos := v.pos + |inc.first|) && inc.pos == input.pos + 1
      modifies this`errorCode, driver, driver.port, tdi, tdoCaptured, nextData, input
      ensures Good() && ViewNow() == M.Incremented(driver.port.tdo, inc, v, At(inc.data, inc.pos - 1))
    {
      ShiftValue(inc, 0);
      if errorCode == ERROR_NONE { PlayPieces(inc, v); } else { Failed(inc, v, 0, At(inc.data, inc.pos - 1)); }
    }

    /** After a failure nothing more is sent. */
    lemma {:induction false} Failed(inc: Increment, v: M.View, k: nat, n: nat)
      requires inc.Valid() && k <= n && M.IncrementTo(driver.port.tdo, inc, v, k).err != ERROR_NONE
      ensures M.IncrementTo(driver.port.tdo, inc, v, n) == M.IncrementTo(driver.port.tdo, inc, v, k)
      decreases n
    {
      if k < n {
        Failed(inc, v, k, n - 1);
        assert M.IncrementTo(driver.port.tdo, inc, v, n) == M.IncrementAfter(driver.port.tdo, inc, v, n - 1);
      }
    }

    /** XSDRINC under way, started as the view tells: shift number k has been made, and the next piece of data
        comes next. */
    ghost predicate Incrementing(inc: Increment, v: M.View, k: nat, bits: nat)
      reads this, input, driver, driver.port, tdi, tdoExpected, tdoCaptured, tdoMask, addressMask, dataMask, nextData
    {
      && Holding(inc, k) && bits == Popcount(inc.mask) && input.pos == PiecesEnd(inc.pos, NumBytes(bits), k)
      && ViewNow() == M.IncrementTo(driver.port.tdo, inc, v, k).(pos := input.pos)
      && (if k == 0 then errorCode == ERROR_NONE else ViewNow() == M.IncrementTo(driver.port.tdo, inc, v, k))
    }

    /** The data pieces of XSDRINC. */
    method PlayPieces(ghost inc: Increment, ghost v: M.View)
      requires Holding(inc, 0) && errorCode == ERROR_NONE && input.pos == inc.pos - 1
      requires ViewNow() == M.IncrementTo(driver.port.tdo, inc, v, 0)
      modifies this`errorCode, driver, driver.port, tdi, tdoCaptured, nextData, input
      ensures Good() && ViewNow() == M.Incremented(driver.port.tdo, inc, v, At(inc.data, inc.pos - 1))
    {
      var bits := CountMaskBits(dataMask.val[..dataMask.len]);
      var times := input.ReadByte();
      RepeatPieces(bits, times, inc, v);
    }

    method PlayPiece(bits: nat, ghost inc: Increment, ghost v: M.View, ghost k: nat)
      requires Incrementing(inc, v, k, bits) && errorCode == ERROR_NONE
      modifies this`errorCode, driver, driver.port, tdi, tdoCaptured, nextData, input
      ensures Incrementing(inc, v, k + 1, bits)
    {
      M.IncrementNext(driver.port.tdo, inc, v, k);
      NextValue(bits, inc, k);
      ShiftValue(inc, k + 1);
    }

    method RepeatPieces(bits: nat, times: nat, ghost inc: Increment, ghost v: M.View)
      requires Incrementing(inc, v, 0, bits) && errorCode == ERROR_NONE
      modifies this`errorCode, driver, driver.port, tdi, tdoCaptured, nextData, input
      ensures Good() && ViewNow() == M.Incremented(driver.port.tdo, inc, v, times)
    {
      var i: nat := 0;
      while errorCode == ERROR_NONE && i < times
        invariant Incrementing(inc, v, i, bits) && i <= times
        decreases times - i
      {
        PlayPiece(bits, inc, v, i);
        i := i + 1;
      }
      Finished(inc, v, i, bits, times);
    }

    lemma {:induction false} Finished(inc: Increment, v: M.View, k: nat, bits: nat, times: nat)
      requires Incrementing(inc, v, k, bits) && k <= times
      requires errorCode != ERROR_NONE || k == times
      ensures ViewNow() == M.Incremented(driver.port.tdo, inc, v, times)
    {
      if k < times { Failed(inc, v, k, times); }
    }

    // ----- execution control -----

    /** The player is under way. */
    ghost predicate Steady()
      reads this, driver, driver.port, tdi, tdoExpected, tdoCaptured, tdoMask, addressMask, dataMask, nextData
    {
      Good() && errorCode == ERROR_NONE && !complete
    }

    /** A command of the stream has been read and may be played. */
    ghost predicate Playable(c: byte)
      reads this, input, driver, driver.port, tdi, tdoExpected, tdoCaptured, tdoMask, addressMask, dataMask, nextData
    {
      Steady() && command == c && !Params(input.data, c, input.pos, ViewNow().Frame()).Malformed?
    }

    /** A command has been played from where the view tells, and has done what it means. */
    ghost predicate Played(c: byte, v: M.View)
      reads this, input, driver, driver.port, tdi, tdoExpected, tdoCaptured, tdoMask, addressMask, dataMask, nextData
    {
      Good() && ViewNow() == M.Meaning(input.data, driver.port.tdo, c, v)
    }

    method PlayParameter(ghost c: byte)
      requires Playable(c) && (c == XTDOMASK || c == XRUNTEST || c == XREPEAT || c == XSDRSIZE || c == XSETSDRMASKS)
      modifies this, tdi, tdoMask, addressMask, dataMask, input
      ensures Good() && ViewNow() == M.PlainMeaning(input.data, c, old(ViewNow()))
    {
      if command == XTDOMASK { DoXTDOMASK(); }
      else if command == XRUNTEST { DoXRUNTEST(); }
      else if command == XREPEAT { DoXREPEAT(); }
      else if command == XSDRSIZE { DoXSDRSIZE(); }
      else { DoXSETSDRMASKS(); }
    }

    method PlayControl(ghost c: byte)
      requires Playable(c) && (c == XSTATE || c == XENDIR || c == XENDDR || c == XCOMMENT || c == XWAIT)
      modifies this, tdi, input, driver, driver.port
      ensures Good() && ViewNow() == M.PlainMeaning(input.data, c, old(ViewNow()))
    {
      if command == XCOMMENT { DoXCOMMENT(); }
      else if command == XSTATE { DoXSTATE(); }
      else if command == XWAIT { DoXWAIT(); }
      else { DoXENDXR(); }
    }

    method PlayPlain(ghost c: byte)
      requires Playable(c) && M.IsPlain(c)
      modifies this, tdi, tdoMask, addressMask, dataMask, input, driver, driver.port
      ensures Good() && ViewNow() == M.PlainMeaning(input.data, c, old(ViewNow()))
    {
      if command <= XSETSDRMASKS { PlayParameter(c); } else { PlayControl(c); }
    }

    method PlayData(ghost c: byte)
      requires Steady() && command == c && M.IsData(c)
      modifies this, tdi, tdoExpected, tdoCaptured, input, driver, driver.port
      ensures Good() && ViewNow() == M.DataMeaning(input.data, driver.port.tdo, c, old(ViewNow()))
    {
      if command == XSDR { DoXSDR(); }
      else if command == XSDRTDO { DoXSDRTDO(); }
      else if command <= XSDRE { DoXSDRBCE(); }
      else { DoXSDRTDOBCE(); }
    }

    method PlayChain(ghost c: byte)
      requires Playable(c) && M.IsChain(c)
      modifies this, tdi, tdoCaptured, nextData, input, driver, driver.port
      ensures Good() && ViewNow() == M.ChainMeaning(input.data, driver.port.tdo, c, old(ViewNow()))
    {
      if command == XSIR { DoXSIR(); }
      else if command == XSIR2 { DoXSIR2(); }
      else { DoXSDRINC(); }
    }

    /** The command table of xsvfRun. */
    method Dispatch(ghost c: byte)
      requires Playable(c)
      modifies this, input, driver, driver.port, tdi, tdoExpected, tdoCaptured, tdoMask, addressMask, dataMask, nextData
      ensures Played(c, old(ViewNow()))
    {
      if M.IsData(command) { PlayData(c); }
      else if M.IsChain(command) { PlayChain(c); }
      else if M.IsPlain(command) { PlayPlain(c); }
      else if command == XCOMPLETE { complete := true; }
      else { errorCode := ERROR_ILLEGALCMD; }
    }

    /** What is left of the stream is well formed, if the player goes on at all. */
    ghost predicate OnTrack()
      reads this, input, driver, driver.port, tdi, tdoExpected, tdoCaptured, tdoMask, addressMask, dataMask, nextData
    {
      Good() && (errorCode == ERROR_NONE && !complete ==> WellFormed(input.data, input.pos, ViewNow().Frame()))
    }

    /** xsvfRun: one command. */
    method Run()
      requires OnTrack()
      modifies this, input, driver, driver.port, tdi, tdoExpected, tdoCaptured, tdoMask, addressMask, dataMask, nextData
      ensures OnTrack() && ViewNow() == M.Turn(input.data, driver.port.tdo, old(ViewNow()))
      ensures errorCode == ERROR_NONE && !complete ==> old(input.pos) < input.pos && old(input.pos) < |input.data|
    {
      if errorCode == ERROR_NONE && !complete {
        ghost var v := ViewNow();
        M.TurnReads(input.data, driver.port.tdo, v);
        RunCommand();
      }
    }

    method RunCommand()
      requires Steady() && !Params(input.data, At(input.data, input.pos), input.pos + 1, ViewNow().Frame()).Malformed?
      modifies this, input, driver, driver.port, tdi, tdoExpected, tdoCaptured, tdoMask, addressMask, dataMask, nextData
      ensures Good() && ViewNow() == M.Turn(input.data, driver.port.tdo, old(ViewNow()))
    {
      ghost var p := input.pos;
      Fetch();
      Dispatch(At(input.data, p));
    }

    method Fetch()
      requires Steady() && !Params(input.data, At(input.data, input.pos), input.pos + 1, ViewNow().Frame()).Malformed?
      modifies this`command, this`commandCount, input
      ensures Playable(At(input.data, old(input.pos))) && ViewNow() == old(ViewNow()).(pos := old(input.pos) + 1)
    {
      command := input.ReadByte();
      commandCount := commandCount + 1;
    }

    /** xsvfExecute: for every power-on state of the controller and the pins, every device behind
        the port and every well-formed stream, the player stops, having done what the stream means,
        and its idea of the controller's state is that of a controller driven by the clocks it sent. */
    method Execute() returns (success: bool)
      requires Buffers() && driver.port.Valid() && !masked
      requires WellFormed(input.data, input.pos, Frame(0, dataMask.Bytes(), false))
      modifies this, input, driver, driver.port, tdi, tdoExpected, tdoCaptured, tdoMask, addressMask, dataMask, nextData
      ensures dataMask.Valid() && ViewNow() == M.Ran(input.data, driver.port.tdo, M.Reset(old(ViewNow())))
      ensures After(driver.port.powerOn, driver.port.events) == StateOf(driver.tapState)
      ensures IsShift(driver.tapState) ==> !driver.port.tms
      ensures success == (errorCode == ERROR_NONE) && (success ==> complete)
    {
      Initialize();
      ghost var v := ViewNow();
      while errorCode == ERROR_NONE && !complete
        invariant OnTrack() && M.Ran(input.data, driver.port.tdo, ViewNow()) == M.Ran(input.data, driver.port.tdo, v)
        decreases errorCode == ERROR_NONE && !complete, |input.data| - input.pos
      {
        Run();
      }
      success := errorCode == ERROR_NONE;
    }
  }
}
