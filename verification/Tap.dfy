/** The reference test access port: the controller state diagram of section 6.1 of
    IEEE Std 1149.1-2001, and a device whose instruction and data registers are scanned
    through it.  Nothing here knows about the software that drives the pins. */
module Tap {

  datatype State =
    | TestLogicReset | RunTestIdle
    | SelectDR | CaptureDR | ShiftDR | Exit1DR | PauseDR | Exit2DR | UpdateDR
    | SelectIR | CaptureIR | ShiftIR | Exit1IR | PauseIR | Exit2IR | UpdateIR

  /** What a device sees: rising TCK edges with the TMS and TDI levels sampled at them,
      assertions of the TRST pin, and pauses of so many microseconds without either. */
  datatype Event = Clock(tms: bool, tdi: bool) | Trst | Wait(microsec: nat)

  function Next(s: State, tms: bool): State
  {
    match s
    case TestLogicReset => if tms then TestLogicReset else RunTestIdle
    case RunTestIdle => if tms then SelectDR else RunTestIdle
    case SelectDR => if tms then SelectIR else CaptureDR
    case CaptureDR => if tms then Exit1DR else ShiftDR
    case ShiftDR => if tms then Exit1DR else ShiftDR
    case Exit1DR => if tms then UpdateDR else PauseDR
    case PauseDR => if tms then Exit2DR else PauseDR
    case Exit2DR => if tms then UpdateDR else ShiftDR
    case UpdateDR => if tms then SelectDR else RunTestIdle
    case SelectIR => if tms then TestLogicReset else CaptureIR
    case CaptureIR => if tms then Exit1IR else ShiftIR
    case ShiftIR => if tms then Exit1IR else ShiftIR
    case Exit1IR => if tms then UpdateIR else PauseIR
    case PauseIR => if tms then Exit2IR else PauseIR
    case Exit2IR => if tms then UpdateIR else ShiftIR
    case UpdateIR => if tms then SelectDR else RunTestIdle
  }

  function Step(s: State, e: Event): State
  {
    match e
    case Clock(tms, _) => Next(s, tms)
    case Trst => TestLogicReset
    case Wait(_) => s
  }

  /** The controller state after a run of events. */
  function After(s: State, es: seq<Event>): State
    decreases |es|, 0
  {
    if |es| == 0 then s else AfterLast(s, es, |es| - 1)
  }

  /** The same, stepping over the last of a non-empty run of events. */
  function AfterLast(s: State, es: seq<Event>, n: nat): State
    requires n + 1 == |es|
    decreases n, 1
  {
    Step(After(s, es[..n]), es[n])
  }

  lemma {:induction false} AfterConcat(s: State, a: seq<Event>, b: seq<Event>)
    ensures After(s, a + b) == After(After(s, a), b)
  {
    if b == [] {
      assert a + b == a;
    } else {
      var n := |b| - 1;
      AfterConcat(s, a, b[..n]);
      assert (a + b)[..|a| + n] == a + b[..n];
      assert After(s, a + b) == AfterLast(s, a + b, |a| + n);
    }
  }

  lemma {:induction false} AfterOne(s: State, e: Event)
    ensures After(s, [e]) == Step(s, e)
  {
  }

  /** Prefixing one event. */
  lemma {:induction false} AfterCons(s: State, e: Event, es: seq<Event>)
    ensures After(s, [e] + es) == After(Step(s, e), es)
  {
    AfterConcat(s, [e], es);
    AfterOne(s, e);
  }

  lemma {:induction false} AfterSnoc(s: State, es: seq<Event>, e: Event)
    ensures After(s, es + [e]) == Step(After(s, es), e)
  {
  }

  /** n clocks with TMS high. */
  function Ones(n: nat, tdi: bool): (es: seq<Event>)
    ensures |es| == n
    decreases n, tdi
  {
    if n == 0 then [] else Ones(n - 1, tdi) + [Clock(true, tdi)]
  }

  /** Clocks with TMS high still needed to reach Test-Logic-Reset. */
  function Height(s: State): nat
  {
    match s
    case TestLogicReset => 0 case SelectIR => 1 case SelectDR => 2
    case RunTestIdle => 3 case UpdateDR => 3 case UpdateIR => 3
    case Exit1DR => 4 case Exit2DR => 4 case Exit1IR => 4 case Exit2IR => 4
    case _ => 5
  }

  lemma {:induction false} HeightStep(s: State)
    ensures Height(Next(s, true)) == if Height(s) == 0 then 0 else Height(s) - 1
    ensures Height(s) <= 5 && (Height(s) == 0 ==> s == TestLogicReset)
  {
  }

  lemma {:induction false} OnesLower(s: State, n: nat, tdi: bool)
    ensures Height(After(s, Ones(n, tdi))) == if Height(s) <= n then 0 else Height(s) - n
    decreases n
  {
    if n > 0 {
      OnesLower(s, n - 1, tdi);
      AfterSnoc(s, Ones(n - 1, tdi), Clock(true, tdi));
      HeightStep(After(s, Ones(n - 1, tdi)));
    }
  }

  /** Five clocks with TMS high reach Test-Logic-Reset from every state. */
  lemma {:induction false} OnesReset(s: State, n: nat, tdi: bool)
    requires n >= 5
    ensures After(s, Ones(n, tdi)) == TestLogicReset
  {
    OnesLower(s, n, tdi);
    HeightStep(s);
    HeightStep(After(s, Ones(n, tdi)));
  }

  // ----- a device behind the port -----

  /** A device with one scan register per path.  The low end of a register faces TDO;
      shifting takes TDI in at the high end.  Capture loads the parallel inputs. */
  datatype Device = Device(tap: State, dr: seq<bool>, ir: seq<bool>)

  function Shifted(r: seq<bool>, tdi: bool): (r': seq<bool>)
    ensures |r'| == |r|
  {
    if r == [] then [] else r[1..] + [tdi]
  }

  function DeviceStep(d: Device, e: Event, drIn: seq<bool>, irIn: seq<bool>): Device
  {
    match e
    case Trst => d.(tap := TestLogicReset)
    case Wait(_) => d
    case Clock(tms, tdi) =>
      var d' := match d.tap
        case CaptureDR => d.(dr := drIn)
        case ShiftDR => d.(dr := Shifted(d.dr, tdi))
        case CaptureIR => d.(ir := irIn)
        case ShiftIR => d.(ir := Shifted(d.ir, tdi))
        case _ => d;
      d'.(tap := Next(d.tap, tms))
  }

  function DeviceAfter(d: Device, es: seq<Event>, drIn: seq<bool>, irIn: seq<bool>): Device
  {
    if es == [] then d
    else DeviceStep(DeviceAfter(d, es[..|es| - 1], drIn, irIn), es[|es| - 1], drIn, irIn)
  }

  /** The TDO level of a device, which only drives TDO while shifting. */
  predicate Tdo(d: Device)
  {
    if d.tap == ShiftDR && d.dr != [] then d.dr[0]
    else if d.tap == ShiftIR && d.ir != [] then d.ir[0]
    else true
  }

  lemma {:induction false} DeviceAfterConcat(d: Device, a: seq<Event>, b: seq<Event>, drIn: seq<bool>, irIn: seq<bool>)
    ensures DeviceAfter(d, a + b, drIn, irIn) == DeviceAfter(DeviceAfter(d, a, drIn, irIn), b, drIn, irIn)
  {
    if b == [] {
      assert a + b == a;
    } else {
      DeviceAfterConcat(d, a, b[..|b| - 1], drIn, irIn);
      assert (a + b)[..|a + b| - 1] == a + b[..|b| - 1];
    }
  }

  /** The device's controller is the reference controller. */
  lemma {:induction false} DeviceFollowsTap(d: Device, es: seq<Event>, drIn: seq<bool>, irIn: seq<bool>)
    ensures DeviceAfter(d, es, drIn, irIn).tap == After(d.tap, es)
  {
    if es != [] {
      DeviceFollowsTap(d, es[..|es| - 1], drIn, irIn);
      assert After(d.tap, es) == AfterLast(d.tap, es, |es| - 1);
    }
  }

  // ----- scanning -----

  /** The first n clocks of a scan: one per bit, TMS raised on the very last one if the scan
      leaves the shift state. */
  function ScanTo(bits: seq<bool>, exit: bool, n: nat): (es: seq<Event>)
    requires n <= |bits|
    ensures |es| == n
  {
    if n == 0 then [] else ScanTo(bits, exit, n - 1) + [Clock(exit && n == |bits|, bits[n - 1])]
  }

  function ScanClocks(bits: seq<bool>, exit: bool): (es: seq<Event>)
    ensures |es| == |bits|
  {
    ScanTo(bits, exit, |bits|)
  }

  lemma {:induction false} ScanToAt(bits: seq<bool>, exit: bool, n: nat, k: nat)
    requires k < n <= |bits|
    ensures ScanTo(bits, exit, n)[k] == Clock(exit && k == |bits| - 1, bits[k])
  {
    if k < n - 1 { ScanToAt(bits, exit, n - 1, k); }
  }

  lemma {:induction false} ScanToPrefix(bits: seq<bool>, exit: bool, n: nat, k: nat)
    requires k <= n <= |bits|
    ensures ScanTo(bits, exit, n)[..k] == ScanTo(bits, exit, k)
  {
    if k < n { ScanToPrefix(bits, exit, n - 1, k); }
  }

  function ExitOf(s: State): State
  {
    if s == ShiftDR then Exit1DR else Exit1IR
  }

  lemma {:induction false} DeviceAfterSnoc(d: Device, es: seq<Event>, e: Event, drIn: seq<bool>, irIn: seq<bool>)
    ensures DeviceAfter(d, es + [e], drIn, irIn) == DeviceStep(DeviceAfter(d, es, drIn, irIn), e, drIn, irIn)
  {
  }

  /** A scan clocked from a shift state stays there until its last clock. */
  lemma {:induction false} ScanStays(s: State, bits: seq<bool>, exit: bool, k: nat)
    requires s == ShiftDR || s == ShiftIR
    requires k <= |bits|
    ensures After(s, ScanTo(bits, exit, k)) == if exit && k == |bits| && k > 0 then ExitOf(s) else s
  {
    if k > 0 {
      ScanStays(s, bits, exit, k - 1);
      StayOnce(s, ScanTo(bits, exit, k - 1), exit && k == |bits|, bits[k - 1], ScanTo(bits, exit, k));
    }
  }

  lemma {:induction false} StayOnce(s: State, before: seq<Event>, tms: bool, tdi: bool, es: seq<Event>)
    requires s == ShiftDR || s == ShiftIR
    requires After(s, before) == s && es == before + [Clock(tms, tdi)]
    ensures After(s, es) == if tms then ExitOf(s) else s
  {
    AfterSnoc(s, before, Clock(tms, tdi));
  }

  /** One shift clock on a register that already took in the bits of a prefix. */
  lemma {:induction false} ShiftedOnce(r: seq<bool>, bits: seq<bool>, k: nat)
    requires |r| == |bits| && 0 < k <= |bits|
    ensures Shifted(r[k - 1..] + bits[..k - 1], bits[k - 1]) == r[k..] + bits[..k]
  {
  }

  /** The register that is scanned in a shift state. */
  function Path(d: Device, s: State): seq<bool>
  {
    if s == ShiftDR then d.dr else d.ir
  }

  function OtherPath(d: Device, s: State): seq<bool>
  {
    if s == ShiftDR then d.ir else d.dr
  }

  /** A clock in a shift state shifts one register and leaves the other. */
  lemma {:induction false} ShiftStep(d: Device, tms: bool, tdi: bool, drIn: seq<bool>, irIn: seq<bool>)
    requires d.tap == ShiftDR || d.tap == ShiftIR
    ensures Path(DeviceStep(d, Clock(tms, tdi), drIn, irIn), d.tap) == Shifted(Path(d, d.tap), tdi)
    ensures OtherPath(DeviceStep(d, Clock(tms, tdi), drIn, irIn), d.tap) == OtherPath(d, d.tap)
  {
  }

  /** The register holds its own upper part followed by the first k scanned bits, and the other register
      is as before. */
  ghost predicate FilledTo(d: Device, now: Device, bits: seq<bool>, k: nat)
    requires |Path(d, d.tap)| == |bits| && k <= |bits|
  {
    Path(now, d.tap) == Path(d, d.tap)[k..] + bits[..k] && OtherPath(now, d.tap) == OtherPath(d, d.tap)
  }

  lemma {:induction false} NoneFilled(d: Device, bits: seq<bool>)
    requires |Path(d, d.tap)| == |bits|
    ensures FilledTo(d, d, bits, 0)
  {
  }

  /** So it is after k clocks of a scan. */
  lemma {:induction false} ScanFills(d: Device, bits: seq<bool>, exit: bool, k: nat, drIn: seq<bool>, irIn: seq<bool>)
    requires (d.tap == ShiftDR || d.tap == ShiftIR) && |Path(d, d.tap)| == |bits| && k <= |bits|
    ensures FilledTo(d, DeviceAfter(d, ScanTo(bits, exit, k), drIn, irIn), bits, k)
  {
    if k == 0 {
      NoneFilled(d, bits);
    } else {
      ScanFills(d, bits, exit, k - 1, drIn, irIn);
      ScanningStays(d, bits, exit, k - 1, drIn, irIn);
      FillNext(d, ScanTo(bits, exit, k - 1), bits, exit && k == |bits|, k, drIn, irIn);
    }
  }

  lemma {:induction false} FillNext(d: Device, before: seq<Event>, bits: seq<bool>, tms: bool, k: nat,
                                    drIn: seq<bool>, irIn: seq<bool>)
    requires (d.tap == ShiftDR || d.tap == ShiftIR) && |Path(d, d.tap)| == |bits| && 0 < k <= |bits|
    requires DeviceAfter(d, before, drIn, irIn).tap == d.tap
    requires FilledTo(d, DeviceAfter(d, before, drIn, irIn), bits, k - 1)
    ensures FilledTo(d, DeviceAfter(d, before + [Clock(tms, bits[k - 1])], drIn, irIn), bits, k)
  {
    DeviceAfterSnoc(d, before, Clock(tms, bits[k - 1]), drIn, irIn);
    FillStep(d, DeviceAfter(d, before, drIn, irIn), bits, tms, k, drIn, irIn);
  }

  lemma {:induction false} ScanningStays(d: Device, bits: seq<bool>, exit: bool, k: nat,
                                         drIn: seq<bool>, irIn: seq<bool>)
    requires (d.tap == ShiftDR || d.tap == ShiftIR) && k < |bits|
    ensures DeviceAfter(d, ScanTo(bits, exit, k), drIn, irIn).tap == d.tap
  {
    DeviceFollowsTap(d, ScanTo(bits, exit, k), drIn, irIn);
    ScanStays(d.tap, bits, exit, k);
  }

  lemma {:induction false} FillStep(d: Device, now: Device, bits: seq<bool>, tms: bool, k: nat, drIn: seq<bool>,
      irIn: seq<bool>)
    requires (d.tap == ShiftDR || d.tap == ShiftIR) && now.tap == d.tap && |Path(d, d.tap)| == |bits| && 0 < k <= |bits|
    requires FilledTo(d, now, bits, k - 1)
    ensures FilledTo(d, DeviceStep(now, Clock(tms, bits[k - 1]), drIn, irIn), bits, k)
  {
    ShiftStep(now, tms, bits[k - 1], drIn, irIn);
    ShiftedOnce(Path(d, d.tap), bits, k);
  }

  /** Scanning N bits through an N-bit register swaps contents: the register ends up holding
      the scanned bits, TDO presents the old contents in order, the other register keeps its own,
      and the controller leaves the shift state on the last clock exactly when told to. */
  lemma {:induction false} ScanSwaps(d: Device, bits: seq<bool>, exit: bool, drIn: seq<bool>, irIn: seq<bool>)
    requires (d.tap == ShiftDR || d.tap == ShiftIR) && |Path(d, d.tap)| == |bits|
    ensures Path(DeviceAfter(d, ScanClocks(bits, exit), drIn, irIn), d.tap) == bits
    ensures OtherPath(DeviceAfter(d, ScanClocks(bits, exit), drIn, irIn), d.tap) == OtherPath(d, d.tap)
    ensures DeviceAfter(d, ScanClocks(bits, exit), drIn, irIn).tap
         == if exit && bits != [] then ExitOf(d.tap) else d.tap
    ensures forall k: nat | k < |bits| :: Tdo(DeviceAfter(d, ScanTo(bits, exit, k), drIn, irIn)) == Path(d, d.tap)[k]
  {
    var n, es := |bits|, ScanClocks(bits, exit);
    assert bits[..n] == bits;
    ScanFills(d, bits, exit, n, drIn, irIn);
    DeviceFollowsTap(d, es, drIn, irIn);
    ScanStays(d.tap, bits, exit, n);
    forall k: nat | k < n ensures Tdo(DeviceAfter(d, ScanTo(bits, exit, k), drIn, irIn)) == Path(d, d.tap)[k] {
      ScanShows(d, bits, exit, k, drIn, irIn);
    }
  }

  lemma {:induction false} ScanShows(d: Device, bits: seq<bool>, exit: bool, k: nat, drIn: seq<bool>, irIn: seq<bool>)
    requires (d.tap == ShiftDR || d.tap == ShiftIR) && |Path(d, d.tap)| == |bits| && k < |bits|
    ensures Tdo(DeviceAfter(d, ScanTo(bits, exit, k), drIn, irIn)) == Path(d, d.tap)[k]
  {
    ScanFills(d, bits, exit, k, drIn, irIn);
    DeviceFollowsTap(d, ScanTo(bits, exit, k), drIn, irIn);
    ScanStays(d.tap, bits, exit, k);
  }

  lemma {:induction false} ScanToJoins(a: seq<bool>, b: seq<bool>, exit: bool, n: nat)
    requires b != [] && n <= |b|
    ensures ScanTo(a + b, exit, |a| + n) == ScanClocks(a, false) + ScanTo(b, exit, n)
  {
    if n == 0 {
      ScanToLeft(a, b, exit, |a|);
      NoMore(ScanClocks(a, false));
    } else {
      ScanToJoins(a, b, exit, n - 1);
      Assoc(ScanClocks(a, false), ScanTo(b, exit, n - 1), [Clock(exit && n == |b|, b[n - 1])]);
    }
  }

  lemma {:induction false} ScanToLeft(a: seq<bool>, b: seq<bool>, exit: bool, n: nat)
    requires b != [] && n <= |a|
    ensures ScanTo(a + b, exit, n) == ScanTo(a, false, n)
  {
    if n > 0 { ScanToLeft(a, b, exit, n - 1); }
  }

  // ----- what is read back during a scan -----

  /** The first n TDO levels read during a scan that starts after the given events. */
  function SampledTo(tdo: seq<Event> -> bool, es: seq<Event>, bits: seq<bool>, exit: bool, n: nat): (r: seq<bool>)
    requires n <= |bits|
    ensures |r| == n
  {
    if n == 0 then [] else SampledTo(tdo, es, bits, exit, n - 1) + [tdo(es + ScanTo(bits, exit, n - 1))]
  }

  function Sampled(tdo: seq<Event> -> bool, es: seq<Event>, bits: seq<bool>, exit: bool): (r: seq<bool>)
    ensures |r| == |bits|
  {
    SampledTo(tdo, es, bits, exit, |bits|)
  }

  lemma {:induction false} SampledAt(tdo: seq<Event> -> bool, es: seq<Event>, bits: seq<bool>, exit: bool, n: nat,
      k: nat)
    requires k < n <= |bits|
    ensures SampledTo(tdo, es, bits, exit, n)[k] == tdo(es + ScanTo(bits, exit, k))
  {
    if k < n - 1 { SampledAt(tdo, es, bits, exit, n - 1, k); }
  }

  /** TDO is driven by this device, whose state at power-on was d. */
  ghost predicate Drives(tdo: seq<Event> -> bool, d: Device, drIn: seq<bool>, irIn: seq<bool>)
  {
    forall es: seq<Event> :: tdo(es) == Tdo(DeviceAfter(d, es, drIn, irIn))
  }

  /** Scanning N bits through an N-bit register: the bits sampled are its old contents, and it
      ends up with the bits sent, on exactly N clocks. */
  lemma {:induction false} CaptureSwaps(tdo: seq<Event> -> bool, d: Device, es: seq<Event>, bits: seq<bool>, exit: bool,
                     drIn: seq<bool>, irIn: seq<bool>)
    requires Drives(tdo, d, drIn, irIn)
    requires After(d.tap, es) == ShiftDR && |DeviceAfter(d, es, drIn, irIn).dr| == |bits|
    ensures Sampled(tdo, es, bits, exit) == DeviceAfter(d, es, drIn, irIn).dr
    ensures DeviceAfter(d, es + ScanClocks(bits, exit), drIn, irIn).dr == bits
    ensures |ScanClocks(bits, exit)| == |bits|
  {
    var now := DeviceAfter(d, es, drIn, irIn);
    DeviceFollowsTap(d, es, drIn, irIn);
    ScanSwaps(now, bits, exit, drIn, irIn);
    DeviceAfterConcat(d, es, ScanClocks(bits, exit), drIn, irIn);
    forall k: nat | k < |bits| ensures Sampled(tdo, es, bits, exit)[k] == now.dr[k] {
      SampledAt(tdo, es, bits, exit, |bits|, k);
      DeviceAfterConcat(d, es, ScanTo(bits, exit, k), drIn, irIn);
    }
  }

  // ----- sequences -----

  lemma {:induction false} Assoc<T>(a: seq<T>, b: seq<T>, c: seq<T>)
    ensures (a + b) + c == a + (b + c)
  {
  }

  lemma {:induction false} NoMore<T>(a: seq<T>)
    ensures a + [] == a
  {
  }
}
