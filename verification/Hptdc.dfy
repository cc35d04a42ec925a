/** The HPTDC chip behind the CTR module's JTAG register, as ctr/driver/ctrdrvr-pci.c drives it. */
module Hptdc {
  import opened Bits
  import opened Tap
  import opened LenVals

  const CMD_BITS := 4

  /** A field of the chip's scan register. */
  datatype Register = Register(value: nat, endBit: nat, startBit: nat)
  {
    ghost predicate Valid()
    {
      startBit <= endBit + 1 && endBit - startBit < 32
    }

    function Width(): nat
      requires Valid()
    {
      endBit - startBit + 1
    }

    function Bits(): (bits: seq<bool>)
      requires Valid()
      ensures |bits| == Width()
    {
      NumberBits(value, Width())
    }
  }

  /** The n low bits of a number, the least significant first. */
  function NumberBits(x: nat, n: nat): (bits: seq<bool>)
    ensures |bits| == n
    decreases n, x
  {
    if n == 0 then [] else NumberBits(x, n - 1) + [Bit(x, n - 1)]
  }

  function CountOnes(bits: seq<bool>): nat
  {
    if bits == [] then 0 else CountOnes(bits[..|bits| - 1]) + if bits[|bits| - 1] then 1 else 0
  }

  lemma {:induction false} CountOnesSnoc(bits: seq<bool>, b: bool)
    ensures CountOnes(bits + [b]) == CountOnes(bits) + if b then 1 else 0
  {
  }

  lemma {:induction false} CountOnesConcat(a: seq<bool>, b: seq<bool>)
    ensures CountOnes(a + b) == CountOnes(a) + CountOnes(b)
  {
    if b == [] {
      NoMore(a);
    } else {
      var n := |b| - 1;
      CountOnesConcat(a, b[..n]);
      assert (a + b)[..|a| + n] == a + b[..n];
    }
  }

  predicate Odd(bits: seq<bool>)
  {
    CountOnes(bits) % 2 == 1
  }

  /** The bit that follows makes parity even. */
  lemma {:induction false} EvenWithParity(bits: seq<bool>)
    ensures !Odd(bits + [Odd(bits)])
  {
  }

  /** The numbers written are the bits sampled, the first one least significant. */
  lemma {:induction false} GatherPrefix(bits: seq<bool>, b: bool, n: nat)
    requires n <= |bits|
    ensures Gather(bits + [b], 0, n) == Gather(bits, 0, n)
  {
    if n > 0 { GatherPrefix(bits, b, n - 1); }
  }

  lemma {:induction false} GatherSnoc(bits: seq<bool>, b: bool)
    ensures Gather(bits + [b], 0, |bits| + 1) == Gather(bits, 0, |bits|) + if b then Pow2(|bits|) else 0
  {
    GatherPrefix(bits, b, |bits|);
  }

  lemma {:induction false} NumberBitsAt(x: nat, n: nat, k: nat)
    requires k < n
    ensures NumberBits(x, n)[k] == Bit(x, k)
  {
    if k < n - 1 { NumberBitsAt(x, n - 1, k); }
  }

  // ----- what a command sends -----

  ghost predicate AllValid(regs: seq<Register>)
  {
    forall k | 0 <= k < |regs| :: regs[k].Valid()
  }

  function AllBits(regs: seq<Register>, n: nat): seq<bool>
    requires n <= |regs| && AllValid(regs)
  {
    if n == 0 then [] else AllBits(regs, n - 1) + regs[n - 1].Bits()
  }

  /** The clocks of the first n registers. */
  function RegisterClocks(regs: seq<Register>, exit: bool, n: nat): seq<Event>
    requires n <= |regs| && AllValid(regs)
  {
    if n == 0 then [] else RegisterClocks(regs, exit, n - 1) + ScanClocks(regs[n - 1].Bits(), exit)
  }

  /** The value read back from register number k. */
  function ReadBack(tdo: seq<Event> -> bool, es: seq<Event>, regs: seq<Register>, exit: bool, k: nat): nat
    requires k < |regs| && AllValid(regs)
  {
    Gather(Sampled(tdo, es + RegisterClocks(regs, exit, k), regs[k].Bits(), exit), 0, regs[k].Width())
  }

  function ReadRegister(tdo: seq<Event> -> bool, es: seq<Event>, regs: seq<Register>, exit: bool, k: nat): Register
    requires k < |regs| && AllValid(regs)
  {
    Register(ReadBack(tdo, es, regs, exit, k), regs[k].endBit, regs[k].startBit)
  }

  /** The first j registers have been read back; the rest of the array is as it was. */
  ghost predicate ReadTo(now: seq<Register>, was: seq<Register>, tdo: seq<Event> -> bool, es: seq<Event>,
                         regs: seq<Register>, exit: bool, j: nat)
  {
    && AllValid(regs) && j <= |regs| <= |now| == |was| && (forall k | j <= k < |now| :: now[k] == was[k])
    && forall k: nat | k < j :: now[k] == ReadRegister(tdo, es, regs, exit, k)
  }

  /** The registers from number j on are still there to be written. */
  ghost predicate Pending(w: seq<Register>, regs: seq<Register>, j: nat)
  {
    |regs| <= |w| && forall k | j <= k < |regs| :: w[k] == regs[k]
  }

  lemma {:induction false} ReadNext(now: seq<Register>, was: seq<Register>, tdo: seq<Event> -> bool, es: seq<Event>,
                                    regs: seq<Register>, exit: bool, j: nat)
    requires ReadTo(now, was, tdo, es, regs, exit, j) && j < |regs|
    ensures ReadTo(now[j := ReadRegister(tdo, es, regs, exit, j)], was, tdo, es, regs, exit, j + 1)
  {
  }

  const RESET_CLOCKS: seq<Event> := [Trst, Trst] + [Clock(false, false)]

  /** From Run-Test/Idle to Shift-IR, and from Exit1-IR to Shift-DR. */
  const SELECT_CLOCKS: seq<Event> := [Clock(true, false), Clock(true, false), Clock(false, false), Clock(false, false)]

  function ParityClock(bits: seq<bool>): seq<Event>
  {
    [Clock(true, Odd(bits))]
  }

  const CLOSE_CLOCKS: seq<Event> := [Clock(true, false), Clock(false, false)]

  function CommandBits(cmd: nat): seq<bool>
  {
    NumberBits(cmd, CMD_BITS) + [Odd(NumberBits(cmd, CMD_BITS))]
  }

  /** Everything before the first register bit. */
  function Lead(cmd: nat, rflg: bool): seq<Event>
  {
    (if rflg then RESET_CLOCKS else []) + SELECT_CLOCKS + ScanClocks(CommandBits(cmd), true) + SELECT_CLOCKS
  }

  /** Everything from there on. */
  function Body(regs: seq<Register>, pflg: bool): seq<Event>
    requires AllValid(regs)
  {
    RegisterClocks(regs, !pflg, |regs|) + (if pflg then ParityClock(AllBits(regs, |regs|)) else []) + CLOSE_CLOCKS
  }

  // ----- the register -----

  /** The JTAG control register: output levels, and the TDO level, which changes while the clock
      is low. */
  class JtagRegister {
    const tdo: seq<Event> -> bool
    var trst: bool
    var tck: bool
    var tms: bool
    var tdi: bool
    var latched: seq<Event>
    var events: seq<Event>

    constructor (tdo: seq<Event> -> bool)
      ensures this.tdo == tdo && events == []
    {
      this.tdo, trst, tck, tms, tdi := tdo, false, false, false, false;
      latched, events := [], [];
    }

    /** Writing the word.  TRST is active low, and holds the controller in reset. */
    method Write(trst: bool, tck: bool, tdi: bool, tms: bool)
      modifies this
      ensures this.trst == trst && this.tck == tck && this.tdi == tdi && this.tms == tms
      ensures events == if !trst then old(events) + [Trst]
                        else if tck && !old(this.tck) then old(events) + [Clock(tms, tdi)] else old(events)
      ensures latched == if tck then old(latched) else events
    {
      if !trst { events := events + [Trst]; }
      else if tck && !this.tck { events := events + [Clock(tms, tdi)]; }
      if !tck { latched := events; }
      this.trst, this.tck, this.tdi, this.tms := trst, tck, tdi, tms;
    }

    /** HptdcBitTransfer: one clock, and the TDO level from before its edge. */
    method BitTransfer(tdi: bool, tms: bool) returns (out: bool)
      modifies this
      ensures events == old(events) + [Clock(tms, tdi)] && out == tdo(old(events)) && !tck && trst
    {
      Write(true, false, tdi, tms);
      Write(true, true, tdi, tms);
      out := tdo(latched);
      Write(true, false, tdi, tms);
    }

    /** HptdcStateReset, from any state and any levels. */
    method StateReset()
      modifies this
      ensures events == old(events) + RESET_CLOCKS
    {
      Write(true, false, false, false);
      Write(false, false, false, false);
      Write(false, true, false, false);
      Write(true, true, false, false);
      Write(true, false, false, false);
      var _ := BitTransfer(false, false);
      Assoc(old(events), [Trst], [Trst]);
      Assoc(old(events), [Trst, Trst], [Clock(false, false)]);
    }

    method SelectScan()
      modifies this
      ensures events == old(events) + SELECT_CLOCKS
    {
      var _ := BitTransfer(false, true);
      var _ := BitTransfer(false, true);
      var _ := BitTransfer(false, false);
      var _ := BitTransfer(false, false);
      FourMore(old(events), Clock(true, false), Clock(false, false));
    }

    /** The bit loop: n bits of a number, the least significant first, TMS being raised on the last
        one if asked.  The levels read back make up the result, and ones are counted. */
    method ShiftNumber(value: nat, n: nat, exit: bool, parity: nat) returns (rval: nat, parity': nat)
      modifies this
      ensures events == old(events) + ScanClocks(NumberBits(value, n), exit)
      ensures rval == Gather(Sampled(tdo, old(events), NumberBits(value, n), exit), 0, n)
      ensures parity' == parity + CountOnes(NumberBits(value, n))
    {
      ghost var es, bits := events, NumberBits(value, n);
      NoMore(es);
      rval, parity' := 0, parity;
      for i := 0 to n
        invariant events == es + ScanTo(bits, exit, i)
        invariant rval == Gather(SampledTo(tdo, es, bits, exit, i), 0, i)
        invariant parity' == parity + CountOnes(NumberBits(value, i))
      {
        var b := Bit(value, i);
        if b { parity' := parity' + 1; }
        NumberBitsAt(value, n, i);
        CountOnesSnoc(NumberBits(value, i), b);
        GatherSnoc(SampledTo(tdo, es, bits, exit, i), tdo(events));
        Assoc(es, ScanTo(bits, exit, i), [Clock(exit && i == n - 1, b)]);
        OrFresh(rval, i);
        var out := BitTransfer(b, exit && i == n - 1);
        if out { rval := Or(rval, Pow2(i)); }
      }
    }

    /** A number with its parity bit, on which TMS is raised. */
    method ShiftCommand(cmd: nat)
      modifies this
      ensures events == old(events) + ScanClocks(CommandBits(cmd), true)
    {
      ghost var bits := NumberBits(cmd, CMD_BITS);
      var _, parity := ShiftNumber(cmd, CMD_BITS, false, 0);
      ParityJoins(old(events), ScanClocks(bits, false), bits);
      var _ := BitTransfer(parity % 2 == 1, true);
    }

    method ShiftRegister(w: Register, exit: bool, parity: nat, ghost es: seq<Event>, ghost regs: seq<Register>,
        ghost j: nat)
      returns (r: Register, parity': nat)
      requires AllValid(regs) && j < |regs| && w == regs[j]
      requires events == es + RegisterClocks(regs, exit, j) && parity == CountOnes(AllBits(regs, j))
      modifies this
      ensures events == es + RegisterClocks(regs, exit, j + 1) && parity' == CountOnes(AllBits(regs, j + 1))
      ensures r == ReadRegister(tdo, es, regs, exit, j)
    {
      var rval;
      rval, parity' := ShiftNumber(w.value, w.Width(), exit, parity);
      Assoc(es, RegisterClocks(regs, exit, j), ScanClocks(w.Bits(), exit));
      CountOnesConcat(AllBits(regs, j), w.Bits());
      r := Register(rval, w.endBit, w.startBit);
    }

    /** One turn of the register loop: the register is read before its place is overwritten. */
    method ShiftNext(wreg: array<Register>, rreg: array?<Register>, j: nat, exit: bool, parity: nat,
                     ghost es: seq<Event>, ghost regs: seq<Register>, ghost was: seq<Register>) returns (parity': nat)
      requires AllValid(regs) && j < |regs| && Pending(wreg[..], regs, j)
      requires rreg != null ==> ReadTo(rreg[..], was, tdo, es, regs, exit, j)
      requires events == es + RegisterClocks(regs, exit, j) && parity == CountOnes(AllBits(regs, j))
      modifies this, rreg
      ensures events == es + RegisterClocks(regs, exit, j + 1) && parity' == CountOnes(AllBits(regs, j + 1))
      ensures rreg != null ==> ReadTo(rreg[..], was, tdo, es, regs, exit, j + 1)
      ensures Pending(wreg[..], regs, j + 1)
    {
      var r;
      r, parity' := ShiftRegister(wreg[j], exit, parity, es, regs, j);
      if rreg != null {
        ReadNext(rreg[..], was, tdo, es, regs, exit, j);
        ghost var now := rreg[..];
        rreg[j] := r;
        assert rreg[..] == now[j := r];
      }
    }

    /** The register loop.  The read-back array may be missing, or be the written one. */
    method ShiftRegisters(wreg: array<Register>, rreg: array?<Register>, size: nat, exit: bool,
        ghost regs: seq<Register>)
      returns (parity: nat)
      requires size <= wreg.Length && regs == wreg[..size] && AllValid(regs)
      requires rreg != null ==> size <= rreg.Length
      modifies this, rreg
      ensures events == old(events) + RegisterClocks(regs, exit, size) && parity == CountOnes(AllBits(regs, size))
      ensures rreg != null ==> ReadTo(rreg[..], old(rreg[..]), tdo, old(events), regs, exit, size)
    {
      ghost var es := events;
      ghost var was := if rreg == null then [] else rreg[..];
      NoMore(es);
      parity := 0;
      for j := 0 to size
        invariant events == es + RegisterClocks(regs, exit, j) && parity == CountOnes(AllBits(regs, j))
        invariant Pending(wreg[..], regs, j)
        invariant rreg != null ==> ReadTo(rreg[..], was, tdo, es, regs, exit, j)
      {
        parity := ShiftNext(wreg, rreg, j, exit, parity, es, regs, was);
      }
    }

    /** HptdcCommand on a module that answers.  A reset may come first; the command and its parity
        bit go to the instruction register, the registers (and their parity bit, if the flag is set)
        to the data register. */
    method Command(cmd: nat, wreg: array<Register>, rreg: array?<Register>, size: nat, pflg: bool, rflg: bool,
                   ghost regs: seq<Register>)
      requires size <= wreg.Length && regs == wreg[..size] && AllValid(regs)
      requires rreg != null ==> size <= rreg.Length
      modifies this, rreg
      ensures events == old(events) + Lead(cmd, rflg) + Body(regs, pflg)
      ensures rreg != null ==>
                forall k: nat | k < size :: rreg[k] == ReadRegister(tdo, old(events) + Lead(cmd, rflg), regs, !pflg, k)
      ensures rreg != null ==> forall k | size <= k < rreg.Length :: rreg[k] == old(rreg[k])
    {
      Approach(cmd, rflg);
      ghost var es := events;
      var parity := ShiftRegisters(wreg, rreg, size, !pflg, regs);
      Leave(parity, pflg, es, regs);
    }

    /** The clocks up to Shift-DR. */
    method Approach(cmd: nat, rflg: bool)
      modifies this
      ensures events == old(events) + Lead(cmd, rflg)
    {
      ghost var es, scan := events, ScanClocks(CommandBits(cmd), true);
      if rflg { StateReset(); } else { NoMore(es); }
      ghost var reset := if rflg then RESET_CLOCKS else [];
      SelectScan();
      Assoc(es, reset, SELECT_CLOCKS);
      ShiftCommand(cmd);
      Assoc(es, reset + SELECT_CLOCKS, scan);
      SelectScan();
      Assoc(es, reset + SELECT_CLOCKS + scan, SELECT_CLOCKS);
    }

    /** The parity bit, if any, and the way back to Run-Test/Idle. */
    method Leave(parity: nat, pflg: bool, ghost es: seq<Event>, ghost regs: seq<Register>)
      requires AllValid(regs) && parity == CountOnes(AllBits(regs, |regs|))
      requires events == es + RegisterClocks(regs, !pflg, |regs|)
      modifies this
      ensures events == es + Body(regs, pflg)
    {
      ghost var clocks, last := RegisterClocks(regs, !pflg, |regs|), if pflg then ParityClock(AllBits(regs, |regs|))
          else [];
      if pflg { var _ := BitTransfer(parity % 2 == 1, true); } else { NoMore(events); }
      Assoc(es, clocks, last);
      var _ := BitTransfer(false, true);
      var _ := BitTransfer(false, false);
      Assoc(es + (clocks + last), [Clock(true, false)], [Clock(false, false)]);
      Assoc(es, clocks + last, CLOSE_CLOCKS);
    }
  }

  lemma {:induction false} FourMore(es: seq<Event>, a: Event, b: Event)
    ensures es + [a] + [a] + [b] + [b] == es + [a, a, b, b]
  {
  }

  lemma {:induction false} ParityJoins(es: seq<Event>, clocks: seq<Event>, bits: seq<bool>)
    requires clocks == ScanClocks(bits, false)
    ensures es + clocks + ParityClock(bits) == es + ScanClocks(bits + [Odd(bits)], true)
  {
    ScanToJoins(bits, [Odd(bits)], true, 1);
    assert ScanTo([Odd(bits)], true, 0) == [];
    assert ScanTo([Odd(bits)], true, 1) == ParityClock(bits);
    Assoc(es, clocks, ParityClock(bits));
  }

  // ----- the controller -----

  lemma {:induction false} AfterTwo(s: State, a: Event, b: Event)
    ensures After(s, [a, b]) == Step(Step(s, a), b)
  {
    AfterCons(s, a, [b]);
    AfterOne(Step(s, a), b);
    assert [a] + [b] == [a, b];
  }

  lemma {:induction false} AfterFour(s: State, a: Event, b: Event, c: Event, e: Event)
    ensures After(s, [a, b, c, e]) == Step(Step(Step(Step(s, a), b), c), e)
  {
    AfterConcat(s, [a, b], [c, e]);
    AfterTwo(s, a, b);
    AfterTwo(Step(Step(s, a), b), c, e);
    assert [a, b] + [c, e] == [a, b, c, e];
  }

  lemma {:induction false} ResetReaches(s: State)
    ensures After(s, RESET_CLOCKS) == RunTestIdle
  {
    AfterTwo(s, Trst, Trst);
    AfterSnoc(s, [Trst, Trst], Clock(false, false));
  }

  /** The first part of a command leads from Run-Test/Idle, or with a reset from anywhere, to
      Shift-DR. */
  lemma {:induction false} LeadReaches(s: State, cmd: nat, rflg: bool)
    requires rflg || s == RunTestIdle
    ensures After(s, Lead(cmd, rflg)) == ShiftDR
  {
    var reset, scan := if rflg then RESET_CLOCKS else [], ScanClocks(CommandBits(cmd), true);
    AfterConcat(s, reset + SELECT_CLOCKS + scan, SELECT_CLOCKS);
    AfterConcat(s, reset + SELECT_CLOCKS, scan);
    AfterConcat(s, reset, SELECT_CLOCKS);
    if rflg { ResetReaches(s); }
    AfterFour(RunTestIdle, Clock(true, false), Clock(true, false), Clock(false, false), Clock(false, false));
    ScanStays(ShiftIR, CommandBits(cmd), true, |CommandBits(cmd)|);
    AfterFour(Exit1IR, Clock(true, false), Clock(true, false), Clock(false, false), Clock(false, false));
  }

  lemma {:induction false} ScanOn(a: seq<bool>, b: seq<bool>)
    ensures ScanClocks(a + b, false) == ScanClocks(a, false) + ScanClocks(b, false)
  {
    if b == [] {
      NoMore(a);
      NoMore(ScanClocks(a, false));
    } else {
      ScanToJoins(a, b, false, |b|);
    }
  }

  /** With the parity flag, TMS stays low throughout the registers: they form one scan. */
  lemma {:induction false} RegistersJoin(regs: seq<Register>, n: nat)
    requires AllValid(regs) && n <= |regs|
    ensures RegisterClocks(regs, false, n) == ScanClocks(AllBits(regs, n), false)
  {
    if n > 0 {
      RegistersJoin(regs, n - 1);
      ScanOn(AllBits(regs, n - 1), regs[n - 1].Bits());
    }
  }

  function DataBits(regs: seq<Register>): seq<bool>
    requires AllValid(regs)
  {
    AllBits(regs, |regs|) + [Odd(AllBits(regs, |regs|))]
  }

  lemma {:induction false} BodyIsOneScan(regs: seq<Register>)
    requires AllValid(regs)
    ensures Body(regs, true) == ScanClocks(DataBits(regs), true) + CLOSE_CLOCKS
  {
    var bits := AllBits(regs, |regs|);
    RegistersJoin(regs, |regs|);
    ParityJoins([], ScanClocks(bits, false), bits);
    assert [] + ScanClocks(bits, false) == ScanClocks(bits, false);
    assert [] + ScanClocks(DataBits(regs), true) == ScanClocks(DataBits(regs), true);
  }

  /** A command with the parity flag starts and ends in Run-Test/Idle. */
  lemma {:induction false} CommandReaches(s: State, cmd: nat, rflg: bool, regs: seq<Register>)
    requires AllValid(regs) && (rflg || s == RunTestIdle)
    ensures After(s, Lead(cmd, rflg) + Body(regs, true)) == RunTestIdle
  {
    AfterConcat(s, Lead(cmd, rflg), Body(regs, true));
    LeadReaches(s, cmd, rflg);
    BodyIsOneScan(regs);
    AfterConcat(ShiftDR, ScanClocks(DataBits(regs), true), CLOSE_CLOCKS);
    ScanStays(ShiftDR, DataBits(regs), true, |DataBits(regs)|);
    AfterTwo(Exit1DR, Clock(true, false), Clock(false, false));
  }

  // ----- when all register bits are shifted -----

  /** Every bit of every register is clocked in Shift-DR. */
  ghost predicate AllShifted(regs: seq<Register>, exit: bool)
    requires AllValid(regs)
  {
    forall j: nat, i: nat | j < |regs| && i < regs[j].Width() ::
      After(ShiftDR, RegisterClocks(regs, exit, j) + ScanTo(regs[j].Bits(), exit, i)) == ShiftDR
  }

  /** The registers all get through, and the command ends in Run-Test/Idle, exactly if the parity
      flag is set or there is just one register. */
  lemma {:induction false} AllShiftedIff(regs: seq<Register>, pflg: bool)
    requires AllValid(regs) && forall j | 0 <= j < |regs| :: regs[j].Width() > 0
    ensures AllShifted(regs, !pflg) && After(ShiftDR, Body(regs, pflg)) == RunTestIdle <==> pflg || |regs| == 1
  {
    if pflg {
      ParityShifts(regs);
    } else if |regs| == 0 {
      EmptyBody(regs);
    } else if |regs| == 1 {
      SingleShifts(regs);
    } else {
      SecondMisses(regs, 1, 0);
    }
  }

  lemma {:induction false} SecondMisses(regs: seq<Register>, j: nat, i: nat)
    requires AllValid(regs) && j == 1 < |regs| && i == 0 < regs[1].Width() && regs[0].Width() > 0
    ensures !AllShifted(regs, true)
  {
    FirstExits(regs);
    NoMore(RegisterClocks(regs, true, j));
    assert After(ShiftDR, RegisterClocks(regs, true, j) + ScanTo(regs[j].Bits(), true, i)) == Exit1DR;
  }

  lemma {:induction false} EmptyBody(regs: seq<Register>)
    requires regs == []
    ensures After(ShiftDR, Body(regs, false)) == PauseDR
  {
    assert Body(regs, false) == CLOSE_CLOCKS;
    AfterTwo(ShiftDR, Clock(true, false), Clock(false, false));
  }

  lemma {:induction false} ParityShifts(regs: seq<Register>)
    requires AllValid(regs)
    ensures AllShifted(regs, false) && After(ShiftDR, Body(regs, true)) == RunTestIdle
  {
    forall j: nat, i: nat | j < |regs| && i < regs[j].Width()
      ensures After(ShiftDR, RegisterClocks(regs, false, j) + ScanTo(regs[j].Bits(), false, i)) == ShiftDR
    {
      AfterConcat(ShiftDR, RegisterClocks(regs, false, j), ScanTo(regs[j].Bits(), false, i));
      RegistersJoin(regs, j);
      ScanStays(ShiftDR, AllBits(regs, j), false, |AllBits(regs, j)|);
      ScanStays(ShiftDR, regs[j].Bits(), false, i);
    }
    BodyIsOneScan(regs);
    AfterConcat(ShiftDR, ScanClocks(DataBits(regs), true), CLOSE_CLOCKS);
    ScanStays(ShiftDR, DataBits(regs), true, |DataBits(regs)|);
    AfterTwo(Exit1DR, Clock(true, false), Clock(false, false));
  }

  lemma {:induction false} FirstExits(regs: seq<Register>)
    requires AllValid(regs) && |regs| > 0 && regs[0].Width() > 0
    ensures RegisterClocks(regs, true, 1) == ScanClocks(regs[0].Bits(), true)
    ensures After(ShiftDR, RegisterClocks(regs, true, 1)) == Exit1DR
  {
    assert RegisterClocks(regs, true, 0) == [];
    ScanStays(ShiftDR, regs[0].Bits(), true, regs[0].Width());
  }

  lemma {:induction false} SingleShifts(regs: seq<Register>)
    requires AllValid(regs) && |regs| == 1 && regs[0].Width() > 0
    ensures AllShifted(regs, true) && After(ShiftDR, Body(regs, false)) == RunTestIdle
  {
    FirstExits(regs);
    NoMore(RegisterClocks(regs, true, 1));
    AfterConcat(ShiftDR, RegisterClocks(regs, true, 1), CLOSE_CLOCKS);
    AfterTwo(Exit1DR, Clock(true, false), Clock(false, false));
    forall i: nat | i < regs[0].Width()
      ensures After(ShiftDR, RegisterClocks(regs, true, 0) + ScanTo(regs[0].Bits(), true, i)) == ShiftDR
    {
      assert RegisterClocks(regs, true, 0) + ScanTo(regs[0].Bits(), true, i) == ScanTo(regs[0].Bits(), true, i);
      ScanStays(ShiftDR, regs[0].Bits(), true, i);
    }
  }

  // ----- the chip -----

  lemma {:induction false} DeviceFour(d: Device, a: Event, b: Event, c: Event, e: Event, drIn: seq<bool>,
      irIn: seq<bool>)
    ensures DeviceAfter(d, [a, b, c, e], drIn, irIn)
         == DeviceStep(DeviceStep(DeviceStep(DeviceStep(d, a, drIn, irIn), b, drIn, irIn), c, drIn, irIn), e, drIn,
             irIn)
  {
    DeviceTwo(d, a, b, drIn, irIn);
    assert [a, b, c] == [a, b] + [c];
    DeviceAfterSnoc(d, [a, b], c, drIn, irIn);
    assert [a, b, c, e] == [a, b, c] + [e];
    DeviceAfterSnoc(d, [a, b, c], e, drIn, irIn);
  }

  lemma {:induction false} DeviceTwo(d: Device, a: Event, b: Event, drIn: seq<bool>, irIn: seq<bool>)
    ensures DeviceAfter(d, [a, b], drIn, irIn) == DeviceStep(DeviceStep(d, a, drIn, irIn), b, drIn, irIn)
  {
    assert [] + [a] == [a] && [a] + [b] == [a, b];
    DeviceAfterSnoc(d, [], a, drIn, irIn);
    DeviceAfterSnoc(d, [a], b, drIn, irIn);
  }

  lemma {:induction false} SelectsIr(d: Device, drIn: seq<bool>, irIn: seq<bool>)
    requires d.tap == RunTestIdle
    ensures DeviceAfter(d, SELECT_CLOCKS, drIn, irIn) == Device(ShiftIR, d.dr, irIn)
  {
    DeviceFour(d, Clock(true, false), Clock(true, false), Clock(false, false), Clock(false, false), drIn, irIn);
  }

  lemma {:induction false} SelectsDr(d: Device, drIn: seq<bool>, irIn: seq<bool>)
    requires d.tap == Exit1IR
    ensures DeviceAfter(d, SELECT_CLOCKS, drIn, irIn) == Device(ShiftDR, drIn, d.ir)
  {
    DeviceFour(d, Clock(true, false), Clock(true, false), Clock(false, false), Clock(false, false), drIn, irIn);
  }

  /** Before the first register bit the instruction register holds the command and its parity bit,
      and the data register what it captured. */
  lemma {:induction false} LeadLoads(d: Device, cmd: nat, rflg: bool, drIn: seq<bool>, irIn: seq<bool>)
    requires (rflg || d.tap == RunTestIdle) && |irIn| == CMD_BITS + 1
    ensures DeviceAfter(d, Lead(cmd, rflg), drIn, irIn) == Device(ShiftDR, drIn, CommandBits(cmd))
  {
    var reset, scan := if rflg then RESET_CLOCKS else [], ScanClocks(CommandBits(cmd), true);
    DeviceAfterConcat(d, reset + SELECT_CLOCKS + scan, SELECT_CLOCKS, drIn, irIn);
    DeviceAfterConcat(d, reset + SELECT_CLOCKS, scan, drIn, irIn);
    DeviceAfterConcat(d, reset, SELECT_CLOCKS, drIn, irIn);
    var d1 := DeviceAfter(d, reset, drIn, irIn);
    DeviceFollowsTap(d, reset, drIn, irIn);
    if rflg { ResetReaches(d.tap); }
    SelectsIr(d1, drIn, irIn);
    var d2 := Device(ShiftIR, d1.dr, irIn);
    ScanSwaps(d2, CommandBits(cmd), true, drIn, irIn);
    SelectsDr(DeviceAfter(d2, scan, drIn, irIn), drIn, irIn);
  }

  lemma {:induction false} CloseKeeps(d: Device, drIn: seq<bool>, irIn: seq<bool>)
    requires d.tap == Exit1DR
    ensures DeviceAfter(d, CLOSE_CLOCKS, drIn, irIn) == d.(tap := RunTestIdle)
  {
    DeviceTwo(d, Clock(true, false), Clock(false, false), drIn, irIn);
  }

  /** What a command with the parity flag does to a chip whose registers have the widths of the
      command and of the fields, each plus a parity bit. */
  lemma {:induction false} CommandLoads(d: Device, cmd: nat, rflg: bool, regs: seq<Register>, drIn: seq<bool>,
      irIn: seq<bool>)
    requires AllValid(regs) && (rflg || d.tap == RunTestIdle)
    requires |irIn| == CMD_BITS + 1 && |drIn| == |DataBits(regs)|
    ensures DeviceAfter(d, Lead(cmd, rflg) + Body(regs, true), drIn, irIn)
         == Device(RunTestIdle, DataBits(regs), CommandBits(cmd))
  {
    DeviceAfterConcat(d, Lead(cmd, rflg), Body(regs, true), drIn, irIn);
    LeadLoads(d, cmd, rflg, drIn, irIn);
    var d1 := Device(ShiftDR, drIn, CommandBits(cmd));
    BodyIsOneScan(regs);
    DeviceAfterConcat(d1, ScanClocks(DataBits(regs), true), CLOSE_CLOCKS, drIn, irIn);
    ScanSwaps(d1, DataBits(regs), true, drIn, irIn);
    CloseKeeps(DeviceAfter(d1, ScanClocks(DataBits(regs), true), drIn, irIn), drIn, irIn);
  }

  // ----- what is read back -----

  lemma {:induction false} AllBitsPrefix(regs: seq<Register>, k: nat, n: nat)
    requires AllValid(regs) && k <= n <= |regs|
    ensures |AllBits(regs, k)| <= |AllBits(regs, n)| && AllBits(regs, n)[..|AllBits(regs, k)|] == AllBits(regs, k)
  {
    if k < n {
      AllBitsPrefix(regs, k, n - 1);
      Prefix(AllBits(regs, n - 1), regs[n - 1].Bits(), |AllBits(regs, k)|);
    } else {
      Prefix(AllBits(regs, n), [], |AllBits(regs, n)|);
    }
  }

  lemma {:induction false} Prefix<T>(a: seq<T>, b: seq<T>, n: nat)
    requires n <= |a|
    ensures (a + b)[..n] == a[..n] && a[..|a|] == a
  {
  }

  /** Bit i of register k is bit number offset plus i of the whole scan. */
  lemma {:induction false} RegisterWithin(regs: seq<Register>, k: nat, i: nat)
    requires AllValid(regs) && k < |regs| && i < regs[k].Width()
    ensures |AllBits(regs, k)| + i < |DataBits(regs)|
    ensures RegisterClocks(regs, false, k) + ScanTo(regs[k].Bits(), false, i)
         == ScanTo(DataBits(regs), true, |AllBits(regs, k)| + i)
  {
    var all, a, b := AllBits(regs, |regs|), AllBits(regs, k), regs[k].Bits();
    RegistersJoin(regs, k);
    ScanToJoins(a, b, false, i);
    AllBitsPrefix(regs, k + 1, |regs|);
    assert AllBits(regs, k + 1) == a + b;
    var rest := DataBits(regs)[|a + b|..];
    Prefix(all, [Odd(all)], |a + b|);
    assert DataBits(regs) == (a + b) + rest;
    ScanToLeft(a + b, rest, true, |a| + i);
  }

  lemma {:induction false} GatherInverse(bits: seq<bool>, n: nat)
    requires n <= |bits|
    ensures NumberBits(Gather(bits, 0, |bits|), n) == bits[..n]
  {
    if n > 0 {
      GatherInverse(bits, n - 1);
      GatherBit(bits, 0, |bits|, n - 1);
    }
  }

  /** With a chip behind the register and the parity flag set, the value returned for each register
      is exactly the field that the chip had captured. */
  lemma {:induction false} ReadBackMeans(tdo: seq<Event> -> bool, d: Device, es: seq<Event>, cmd: nat, rflg: bool,
      regs: seq<Register>, k: nat,
                      drIn: seq<bool>, irIn: seq<bool>)
    requires Drives(tdo, d, drIn, irIn) && AllValid(regs) && k < |regs|
    requires (rflg || After(d.tap, es) == RunTestIdle) && |irIn| == CMD_BITS + 1 && |drIn| == |DataBits(regs)|
    ensures |AllBits(regs, k)| + regs[k].Width() < |drIn|
    ensures NumberBits(ReadBack(tdo, es + Lead(cmd, rflg), regs, false, k), regs[k].Width())
         == drIn[|AllBits(regs, k)|..|AllBits(regs, k)| + regs[k].Width()]
  {
    StartsCaptured(tdo, d, es, cmd, rflg, regs, drIn, irIn);
    ReadBackSlice(tdo, es + Lead(cmd, rflg), regs, k, drIn);
  }

  lemma {:induction false} ReadBackSlice(tdo: seq<Event> -> bool, start: seq<Event>, regs: seq<Register>, k: nat,
      drIn: seq<bool>)
    requires AllValid(regs) && k < |regs| && Sampled(tdo, start, DataBits(regs), true) == drIn
    ensures |AllBits(regs, k)| + regs[k].Width() < |drIn|
    ensures NumberBits(ReadBack(tdo, start, regs, false, k), regs[k].Width())
         == drIn[|AllBits(regs, k)|..|AllBits(regs, k)| + regs[k].Width()]
  {
    var off, width := |AllBits(regs, k)|, regs[k].Width();
    FieldFits(regs, k);
    var read := Sampled(tdo, start + RegisterClocks(regs, false, k), regs[k].Bits(), false);
    ReadsSlice(tdo, start, regs, k, width);
    GatherInverse(read, width);
    Prefix(read, [], width);
  }

  lemma {:induction false} ReadsSlice(tdo: seq<Event> -> bool, start: seq<Event>, regs: seq<Register>, k: nat, n: nat)
    requires AllValid(regs) && k < |regs| && n <= regs[k].Width()
    ensures |AllBits(regs, k)| + n < |DataBits(regs)|
    ensures Sampled(tdo, start + RegisterClocks(regs, false, k), regs[k].Bits(), false)[..n]
         == Sampled(tdo, start, DataBits(regs), true)[|AllBits(regs, k)|..|AllBits(regs, k)| + n]
  {
    FieldFits(regs, k);
    if n > 0 {
      var read, all := Sampled(tdo, start + RegisterClocks(regs, false, k), regs[k].Bits(), false),
          Sampled(tdo, start, DataBits(regs), true);
      ReadsSlice(tdo, start, regs, k, n - 1);
      ReadsWithin(tdo, start, regs, k, n - 1);
      LongerSlice(read, all, |AllBits(regs, k)|, n);
    }
  }

  lemma {:induction false} LongerSlice(s: seq<bool>, big: seq<bool>, off: nat, n: nat)
    requires 0 < n <= |s| && off + n <= |big| && s[..n - 1] == big[off..off + n - 1] && s[n - 1] == big[off + n - 1]
    ensures s[..n] == big[off..off + n]
  {
    assert s[..n] == s[..n - 1] + [s[n - 1]];
    assert big[off..off + n] == big[off..off + n - 1] + [big[off + n - 1]];
  }

  lemma {:induction false} FieldFits(regs: seq<Register>, k: nat)
    requires AllValid(regs) && k < |regs|
    ensures |AllBits(regs, k)| + regs[k].Width() < |DataBits(regs)|
  {
    AllBitsPrefix(regs, k + 1, |regs|);
  }

  lemma {:induction false} ReadsWithin(tdo: seq<Event> -> bool, start: seq<Event>, regs: seq<Register>, k: nat, i: nat)
    requires AllValid(regs) && k < |regs| && i < regs[k].Width()
    ensures |AllBits(regs, k)| + i < |DataBits(regs)|
    ensures Sampled(tdo, start + RegisterClocks(regs, false, k), regs[k].Bits(), false)[i]
         == Sampled(tdo, start, DataBits(regs), true)[|AllBits(regs, k)| + i]
  {
    var bits := regs[k].Bits();
    SampledAt(tdo, start + RegisterClocks(regs, false, k), bits, false, |bits|, i);
    RegisterWithin(regs, k, i);
    Assoc(start, RegisterClocks(regs, false, k), ScanTo(bits, false, i));
    SampledAt(tdo, start, DataBits(regs), true, |DataBits(regs)|, |AllBits(regs, k)| + i);
  }

  /** The whole scan reads out what the chip had captured. */
  lemma {:induction false} StartsCaptured(tdo: seq<Event> -> bool, d: Device, es: seq<Event>, cmd: nat, rflg: bool,
      regs: seq<Register>,
                       drIn: seq<bool>, irIn: seq<bool>)
    requires Drives(tdo, d, drIn, irIn) && AllValid(regs) && |drIn| == |DataBits(regs)|
    requires (rflg || After(d.tap, es) == RunTestIdle) && |irIn| == CMD_BITS + 1
    ensures Sampled(tdo, es + Lead(cmd, rflg), DataBits(regs), true) == drIn
  {
    DeviceAfterConcat(d, es, Lead(cmd, rflg), drIn, irIn);
    DeviceFollowsTap(d, es, drIn, irIn);
    LeadLoads(DeviceAfter(d, es, drIn, irIn), cmd, rflg, drIn, irIn);
    DeviceFollowsTap(d, es + Lead(cmd, rflg), drIn, irIn);
    CaptureSwaps(tdo, d, es + Lead(cmd, rflg), DataBits(regs), true, drIn, irIn);
  }
}
