/** Two consequences of how jtag/micro.c shifts: a scan cut into pieces drives the pins like one
    scan, and a scan as long as the device's register exchanges the two contents. */
module Scans {
  import opened Bits
  import opened Tap
  import opened TapWalk
  import opened LenVals
  import opened Shifter

  /** The pins' history and the player's idea of the controller between two commands. */
  datatype Line = Line(events: seq<Event>, at: Code, tdi: bool)

  /** One shift through the data register without wait or comparison. */
  function Scanned(line: Line, bits: seq<bool>, end: Code): Line
  {
    var job := Job(SHIFTDR, end, bits, 0);
    if bits == [] then line
    else Line(line.events + job.Attempt(line.at, line.tdi, false, 0), job.Settled(), job.LastBit())
  }

  /** What xsvfShift leaves behind when it is told not to wait, compare or retry. */
  lemma {:induction false} ScannedOnce(run: Run, tries: nat, err: int, line: Line)
    requires run.goal.None? && !run.job.Waits() && run.job.start == SHIFTDR
    requires run.Ends(tries, 0, err, line.events, line.at, line.tdi)
    ensures line == Scanned(Line(run.es, run.from, run.tdi), run.job.bits, run.job.end) && err == ERROR_NONE
  {
    if run.job.bits != [] {
      Unopposed(run, tries, 0, err);
      run.EventsStep(0, true);
      assert run.Events(0, false) == run.es;
    } else {
      NoMore(run.es);
    }
  }

  /** The pieces of a scan, all but the last of which stay in Shift-DR. */
  function ScannedPieces(line: Line, pieces: seq<seq<bool>>, end: Code): Line
    requires pieces != []
    decreases |pieces|
  {
    if |pieces| == 1 then Scanned(line, pieces[0], end)
    else ScannedPieces(Scanned(line, pieces[0], SHIFTDR), pieces[1..], end)
  }

  function Joined(pieces: seq<seq<bool>>): seq<bool>
  {
    if pieces == [] then [] else pieces[0] + Joined(pieces[1..])
  }

  lemma {:induction false} FourParts<T>(es: seq<T>, lead: seq<T>, a: seq<T>, b: seq<T>, tail: seq<T>)
    ensures (es + ((lead + a) + [])) + (([] + b) + tail) == es + ((lead + (a + b)) + tail)
  {
  }

  /** Two pieces are one scan. */
  lemma {:induction false} TwoPieces(line: Line, a: seq<bool>, b: seq<bool>, end: Code)
    requires a != [] && b != []
    ensures Scanned(Scanned(line, a, SHIFTDR), b, end) == Scanned(line, a + b, end)
  {
    var ja, jb, jab := Job(SHIFTDR, SHIFTDR, a, 0), Job(SHIFTDR, end, b, 0), Job(SHIFTDR, end, a + b, 0);
    var first := ja.Attempt(line.at, line.tdi, false, 0);
    TwoAttempts(line.events, ja, jb, jab, line.at, line.tdi);
    assert Scanned(line, a, SHIFTDR) == Line(line.events + first, SHIFTDR, ja.LastBit());
  }

  lemma {:induction false} TwoAttempts(es: seq<Event>, ja: Job, jb: Job, jab: Job, at: Code, tdi: bool)
    requires ja.start == ja.end == jb.start == jab.start == SHIFTDR && jb.end == jab.end && !jb.Waits() && !jab.Waits()
    requires ja.bits != [] && jb.bits != [] && jab.bits == ja.bits + jb.bits
    ensures (es + ja.Attempt(at, tdi, false, 0)) + jb.Attempt(SHIFTDR, ja.LastBit(), false, 0)
         == es + jab.Attempt(at, tdi, false, 0)
    ensures jab.LastBit() == jb.LastBit()
  {
    NoLead(jb, ja.LastBit());
    SameTail(jb, jab);
    ScanToJoins(ja.bits, jb.bits, jb.Exits(), |jb.bits|);
    FourParts(es, ja.Lead(at, tdi), ScanClocks(ja.bits, false), ScanClocks(jb.bits, jb.Exits()), jb.Tail(false, 0));
  }

  lemma {:induction false} NoLead(job: Job, tdi: bool)
    requires job.start == SHIFTDR
    ensures job.Lead(SHIFTDR, tdi) == []
  {
  }

  lemma {:induction false} SameTail(a: Job, b: Job)
    requires a.start == b.start && a.end == b.end && !a.Waits() && !b.Waits() && a.LastBit() == b.LastBit()
    ensures a.Tail(false, 0) == b.Tail(false, 0)
  {
  }

  /** XSDRB, any number of XSDRC, then XSDRE drive the same clocks, and end in the same state, as
      one XSDRE of all the bits. */
  lemma {:induction false} PiecesAreOneScan(line: Line, pieces: seq<seq<bool>>, end: Code)
    requires pieces != [] && forall i | 0 <= i < |pieces| :: pieces[i] != []
    ensures ScannedPieces(line, pieces, end) == Scanned(line, Joined(pieces), end) && Joined(pieces) != []
    decreases |pieces|
  {
    if |pieces| == 1 {
      NoMore(pieces[0]);
    } else {
      PiecesAreOneScan(Scanned(line, pieces[0], SHIFTDR), pieces[1..], end);
      TwoPieces(line, pieces[0], Joined(pieces[1..]), end);
    }
  }

  // ----- what a capture contains -----

  /** Bit k of a byte string is bit k of its value. */
  lemma {:induction false} BitOfValue(s: seq<byte>, k: nat)
    requires k < 8 * |s|
    ensures Bit(BytesValue(s), k) == BitAt(s, k)
  {
    var init, low := s[..|s| - 1], s[|s| - 1];
    Pow2Eight();
    HighAndLow(BytesValue(init), low, 8, k);
    if k >= 8 {
      BitOfValue(init, k - 8);
      assert BitAt(init, k - 8) == BitAt(s, k);
    }
  }

  lemma {:induction false} HighAndLow(high: nat, low: nat, w: nat, k: nat)
    requires low < Pow2(w)
    ensures Bit(high * Pow2(w) + low, k) == if k < w then Bit(low, k) else Bit(high, k - w)
  {
    if w > 0 {
      var half := high * Pow2(w - 1);
      DoubleOut(high, Pow2(w - 1));
      assert high * Pow2(w) + low == 2 * half + low;
      if k > 0 {
        HighAndLow(high, low / 2, w - 1, k - 1);
        assert (2 * half + low) / 2 == half + low / 2;
      }
    }
  }

  lemma {:induction false} DoubleOut(x: nat, y: nat)
    ensures x * (2 * y) == 2 * (x * y)
  {
  }

  /** The value captured from an N-bit register is its old contents, zeros above. */
  lemma {:induction false} CapturedValue(contents: seq<bool>, len: nat, k: nat)
    requires |contents| <= 8 * len && k < 8 * len
    ensures Bit(BytesValue(Packed(contents, len)), k) == (k < |contents| && contents[k])
  {
    BitOfValue(Packed(contents, len), k);
    PackedBits(contents, len, k);
  }

  /** So for a device that drives TDO and whose data register is as wide as the scan: what ShiftOnly captures
      is a number whose bits are the old contents of the register, zeros above, and the register is left
      with the bits sent. */
  lemma {:induction false} RegisterRead(tdo: seq<Event> -> bool, d: Device, es: seq<Event>, bits: seq<bool>, exit: bool,
                                        drIn: seq<bool>, irIn: seq<bool>, captured: seq<byte>)
    requires Drives(tdo, d, drIn, irIn) && After(d.tap, es) == ShiftDR && |DeviceAfter(d, es, drIn, irIn).dr| == |bits|
    requires captured == Packed(Sampled(tdo, es, bits, exit), (|bits| + 7) / 8)
    ensures forall k: nat | k < 8 * |captured| ::
              Bit(BytesValue(captured), k) == (k < |bits| && DeviceAfter(d, es, drIn, irIn).dr[k])
    ensures DeviceAfter(d, es + ScanClocks(bits, exit), drIn, irIn).dr == bits
  {
    CaptureSwaps(tdo, d, es, bits, exit, drIn, irIn);
    var contents := DeviceAfter(d, es, drIn, irIn).dr;
    forall k: nat | k < 8 * |captured| ensures Bit(BytesValue(captured), k) == (k < |bits| && contents[k]) {
      CapturedValue(contents, (|bits| + 7) / 8, k);
    }
  }
}
