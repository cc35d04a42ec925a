/** What a chip behind the JTAG register receives and returns, bit by bit: the command of
    ctr/driver/ctrdrvr-pci.c with its parity bits, and the fields of the scan register. */
module HptdcChip {
  import opened Bits
  import opened Tap
  import opened LenVals
  import opened Hptdc

  /** The ones of a bit string. */
  function Ones(bits: seq<bool>): set<nat>
  {
    set i: nat | i < |bits| && bits[i]
  }

  lemma {:induction false} CountsOnes(bits: seq<bool>)
    ensures CountOnes(bits) == |Ones(bits)|
  {
    if bits != [] {
      var init, n := bits[..|bits| - 1], |bits| - 1;
      CountsOnes(init);
      assert Ones(bits) == if bits[n] then Ones(init) + {n} else Ones(init);
    } else {
      assert Ones(bits) == {};
    }
  }

  /** Where register number k starts: after the widths of those before it. */
  function Offset(regs: seq<Register>, k: nat): (n: nat)
    requires k <= |regs| && AllValid(regs)
  {
    if k == 0 then 0 else Offset(regs, k - 1) + (regs[k - 1].endBit - regs[k - 1].startBit + 1)
  }

  lemma {:induction false} OffsetIs(regs: seq<Register>, k: nat)
    requires k <= |regs| && AllValid(regs)
    ensures Offset(regs, k) == |AllBits(regs, k)|
  {
    if k > 0 { OffsetIs(regs, k - 1); }
  }

  /** The bits of a register's value, the least significant first, stand in its place. */
  ghost predicate HoldsRegister(bits: seq<bool>, regs: seq<Register>, j: nat)
    requires AllValid(regs) && j < |regs|
  {
    forall i: nat | i <= regs[j].endBit - regs[j].startBit ::
      Offset(regs, j) + i < |bits| && bits[Offset(regs, j) + i] == Bit(regs[j].value, i)
  }

  lemma {:induction false} DataHolds(regs: seq<Register>, j: nat)
    requires AllValid(regs) && j < |regs|
    ensures HoldsRegister(DataBits(regs), regs, j)
  {
    OffsetIs(regs, j);
    var a, b, all := AllBits(regs, j), regs[j].Bits(), AllBits(regs, |regs|);
    AllBitsPrefix(regs, j + 1, |regs|);
    forall i: nat | i <= regs[j].endBit - regs[j].startBit
      ensures |a| + i < |all| && all[|a| + i] == Bit(regs[j].value, i)
    {
      NumberBitsAt(regs[j].value, regs[j].Width(), i);
      assert all[..|a + b|][|a| + i] == (a + b)[|a| + i];
    }
  }

  lemma {:induction false} Even(bits: seq<bool>)
    ensures |Ones(bits + [Odd(bits)])| % 2 == 0
  {
    EvenWithParity(bits);
    CountsOnes(bits + [Odd(bits)]);
  }

  lemma {:induction false} CommandHolds(cmd: nat)
    ensures |CommandBits(cmd)| == CMD_BITS + 1 && |Ones(CommandBits(cmd))| % 2 == 0
    ensures forall k: nat | k < CMD_BITS :: CommandBits(cmd)[k] == Bit(cmd, k)
  {
    Even(NumberBits(cmd, CMD_BITS));
    forall k: nat | k < CMD_BITS ensures CommandBits(cmd)[k] == Bit(cmd, k) { NumberBitsAt(cmd, CMD_BITS, k); }
  }

  /** A command with the parity flag leaves the chip with the command in its instruction register and the values,
      one after the other, in its data register, each followed by a bit that makes the number of ones even. */
  lemma {:induction false} CommandMeans(d: Device, cmd: nat, rflg: bool, regs: seq<Register>, drIn: seq<bool>,
      irIn: seq<bool>)
    requires AllValid(regs) && (rflg || d.tap == RunTestIdle)
    requires |irIn| == CMD_BITS + 1 && |drIn| == Offset(regs, |regs|) + 1
    ensures var now := DeviceAfter(d, Lead(cmd, rflg) + Body(regs, true), drIn, irIn);
            && now.tap == RunTestIdle && |now.ir| == CMD_BITS + 1 && |now.dr| == Offset(regs, |regs|) + 1
            && (forall k: nat | k < CMD_BITS :: now.ir[k] == Bit(cmd, k))
            && (forall j: nat | j < |regs| :: HoldsRegister(now.dr, regs, j))
            && |Ones(now.ir)| % 2 == 0 && |Ones(now.dr)| % 2 == 0
  {
    OffsetIs(regs, |regs|);
    CommandLoads(d, cmd, rflg, regs, drIn, irIn);
    CommandHolds(cmd);
    Even(AllBits(regs, |regs|));
    forall j: nat | j < |regs| ensures HoldsRegister(DataBits(regs), regs, j) { DataHolds(regs, j); }
  }

  /** A field read back: the bits that the chip had captured in its place, and nothing above them. */
  ghost predicate ReadFrom(r: Register, captured: seq<bool>, regs: seq<Register>, k: nat)
    requires AllValid(regs) && k < |regs|
  {
    && r.endBit == regs[k].endBit && r.startBit == regs[k].startBit && HoldsValue(r.value, captured, regs, k)
  }

  ghost predicate HoldsValue(value: nat, captured: seq<bool>, regs: seq<Register>, k: nat)
    requires AllValid(regs) && k < |regs|
  {
    forall i: nat :: Bit(value, i) == (i <= regs[k].endBit - regs[k].startBit && Offset(regs, k) + i < |captured|
                                       && captured[Offset(regs, k) + i])
  }

  lemma {:induction false} ReadMeans(tdo: seq<Event> -> bool, d: Device, es: seq<Event>, cmd: nat, rflg: bool,
                                     regs: seq<Register>, k: nat, drIn: seq<bool>, irIn: seq<bool>)
    requires Drives(tdo, d, drIn, irIn) && AllValid(regs) && k < |regs|
    requires rflg || After(d.tap, es) == RunTestIdle
    requires |irIn| == CMD_BITS + 1 && |drIn| == Offset(regs, |regs|) + 1
    ensures ReadFrom(ReadRegister(tdo, es + Lead(cmd, rflg), regs, false, k), drIn, regs, k)
  {
    OffsetIs(regs, |regs|);
    OffsetIs(regs, k);
    ReadBackMeans(tdo, d, es, cmd, rflg, regs, k, drIn, irIn);
    SliceHolds(tdo, es + Lead(cmd, rflg), regs, k, drIn);
  }

  lemma {:induction false} SliceHolds(tdo: seq<Event> -> bool, start: seq<Event>, regs: seq<Register>, k: nat,
      drIn: seq<bool>)
    requires AllValid(regs) && k < |regs| && Offset(regs, k) + regs[k].Width() <= |drIn|
    requires NumberBits(ReadBack(tdo, start, regs, false, k), regs[k].Width())
          == drIn[Offset(regs, k)..Offset(regs, k) + regs[k].Width()]
    ensures HoldsValue(ReadBack(tdo, start, regs, false, k), drIn, regs, k)
  {
    var n := regs[k].Width();
    GatherHolds(Sampled(tdo, start + RegisterClocks(regs, false, k), regs[k].Bits(), false), n,
                ReadBack(tdo, start, regs, false, k), drIn[Offset(regs, k)..Offset(regs, k) + n]);
  }

  lemma {:induction false} GatherHolds(read: seq<bool>, n: nat, value: nat, field: seq<bool>)
    requires value == Gather(read, 0, n) && NumberBits(value, n) == field
    ensures forall i: nat :: Bit(value, i) == (i < n && field[i])
  {
    forall i: nat ensures Bit(value, i) == (i < n && field[i]) {
      if i < n { NumberBitsAt(value, n, i); } else { BitBeyond(value, n, i); }
    }
  }

  // ----- one register without parity -----

  lemma {:induction false} SingleScan(tdo: seq<Event> -> bool, d: Device, es: seq<Event>, cmd: nat, rflg: bool,
      bits: seq<bool>,
                                      drIn: seq<bool>, irIn: seq<bool>)
    requires Drives(tdo, d, drIn, irIn) && (rflg || After(d.tap, es) == RunTestIdle)
    requires |irIn| == CMD_BITS + 1 && |drIn| == |bits| > 0
    ensures Sampled(tdo, es + Lead(cmd, rflg), bits, true) == drIn
    ensures DeviceAfter(d, es + Lead(cmd, rflg) + (ScanClocks(bits, true) + CLOSE_CLOCKS), drIn, irIn)
         == Device(RunTestIdle, bits, CommandBits(cmd))
  {
    var start, before := es + Lead(cmd, rflg), DeviceAfter(d, es, drIn, irIn);
    var was := Device(ShiftDR, drIn, CommandBits(cmd));
    DeviceAfterConcat(d, es, Lead(cmd, rflg), drIn, irIn);
    DeviceFollowsTap(d, es, drIn, irIn);
    LeadLoads(before, cmd, rflg, drIn, irIn);
    DeviceFollowsTap(d, start, drIn, irIn);
    CaptureSwaps(tdo, d, start, bits, true, drIn, irIn);
    DeviceAfterConcat(d, start, ScanClocks(bits, true) + CLOSE_CLOCKS, drIn, irIn);
    DeviceAfterConcat(was, ScanClocks(bits, true), CLOSE_CLOCKS, drIn, irIn);
    ScanSwaps(was, bits, true, drIn, irIn);
    CloseKeeps(DeviceAfter(was, ScanClocks(bits, true), drIn, irIn), drIn, irIn);
  }

  /** The only register. */
  lemma {:induction false} SingleBody(regs: seq<Register>, k: nat)
    requires AllValid(regs) && |regs| == 1 && regs[0].Width() > 0 && k == 0
    ensures Body(regs, false) == ScanClocks(regs[k].Bits(), true) + CLOSE_CLOCKS
    ensures RegisterClocks(regs, true, k) == [] && Offset(regs, k) == 0
    ensures HoldsRegister(regs[k].Bits(), regs, k)
  {
    FirstExits(regs);
    NoMore(RegisterClocks(regs, true, 1));
    var bits := regs[k].Bits();
    forall i: nat | i < |bits| ensures bits[i] == Bit(regs[k].value, i) { NumberBitsAt(regs[k].value, |bits|, i); }
  }

  /** Without the parity flag a single register, which is number 0, takes the whole scan, and is read back from it. */
  lemma {:induction false} SingleMeans(tdo: seq<Event> -> bool, d: Device, es: seq<Event>, cmd: nat, rflg: bool,
                                       regs: seq<Register>, drIn: seq<bool>, irIn: seq<bool>, k: nat)
    requires Drives(tdo, d, drIn, irIn) && AllValid(regs) && |regs| == 1 && regs[0].Width() > 0 && k == 0
    requires rflg || After(d.tap, es) == RunTestIdle
    requires |irIn| == CMD_BITS + 1 && |drIn| == regs[0].Width()
    ensures var now := DeviceAfter(d, es + Lead(cmd, rflg) + Body(regs, false), drIn, irIn);
            now.tap == RunTestIdle && |now.dr| == |drIn| && HoldsRegister(now.dr, regs, k)
    ensures ReadFrom(ReadRegister(tdo, es + Lead(cmd, rflg), regs, true, k), drIn, regs, k)
  {
    SingleBody(regs, k);
    SingleScan(tdo, d, es, cmd, rflg, regs[k].Bits(), drIn, irIn);
    NoMore(es + Lead(cmd, rflg));
    var value := ReadBack(tdo, es + Lead(cmd, rflg), regs, true, k);
    WholeRead(drIn, |drIn|, value);
  }

  lemma {:induction false} WholeRead(read: seq<bool>, n: nat, value: nat)
    requires value == Gather(read, 0, n) && n == |read|
    ensures forall i: nat :: Bit(value, i) == (i < n && read[i])
  {
    forall i: nat ensures Bit(value, i) == (i < n && read[i]) { GatherBit(read, 0, n, i); }
  }
}
