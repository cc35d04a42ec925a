/** The part of jtag/micro.c that touches the pins: TMS transitions, seeks, and shifts with
    TDO comparison and retries. */
module Shifter {
  import opened Bits
  import opened Tap
  import opened TapWalk
  import opened Ports
  import opened LenVals

  const ERROR_NONE := 0
  const ERROR_TDOMISMATCH := 2
  const ERROR_MAXRETRIES := 3
  const ERROR_ILLEGALCMD := 4
  const ERROR_ILLEGALSTATE := 5
  const ERROR_DATAOVERFLOW := 6

  lemma {:induction false} OneMore(es: seq<Event>, clocks: seq<Event>, k: nat, e: Event)
    requires k < |clocks| && clocks[k] == e
    ensures (es + clocks[..k]) + [e] == es + clocks[..k + 1]
  {
  }

  lemma {:induction false} Whole<T>(s: seq<T>)
    ensures s[..0] == [] && s[..|s|] == s
  {
  }

  // ----- what xsvfShift sends -----

  /** A wait in Run-Test/Idle. */
  function Pause(from: Code, time: nat, tdi: bool): seq<Event>
  {
    Goto(from, RUNTEST, tdi) + [Wait(time)]
  }

  /** The time to wait grows by a quarter with every retry. */
  function Grown(time: nat, retries: nat): nat
    decreases retries, time
  {
    if retries == 0 then time else var t := Grown(time, retries - 1); t + t / 4
  }

  lemma {:induction false} GrownZero(time: nat, retries: nat)
    ensures Grown(time, retries) == 0 <==> time == 0
  {
    if retries > 0 { GrownZero(time, retries - 1); }
  }

  /** One shift order: the shift state to work in, the state to end in, the bits to send, and for how long
      to wait in Run-Test/Idle afterwards, if at all. */
  datatype Job = Job(start: Code, end: Code, bits: seq<bool>, time: nat)
  {
    predicate Waits()
    {
      time != 0
    }

    ghost predicate Valid()
    {
      IsShift(start) && bits != [] && end != RESET && end != EXIT2DR && end != EXIT2IR
    }

    /** The state after the last clock of an exiting scan. */
    function Exit1(): Code
    {
      if start == SHIFTDR then EXIT1DR else EXIT1IR
    }

    predicate Exits()
    {
      start != end
    }

    /** Where the player ends up, whether or not the attempt matched. */
    function Settled(): Code
    {
      if !Exits() then start else if Waits() then RUNTEST else end
    }

    function LastBit(): bool
    {
      bits != [] && bits[|bits| - 1]
    }

    /** From Exit1 on: towards the end state and the wait of the given time, or the detour through
        Pause-DR and Shift-DR (one extra bit) that a retry takes. */
    function Tail(retry: bool, wait: nat): seq<Event>
    {
      if !Exits() then []
      else if retry then
        (Goto(Exit1(), PAUSEDR, LastBit()) + Goto(PAUSEDR, SHIFTDR, LastBit())) + Pause(SHIFTDR, wait, LastBit())
      else
        Goto(Exit1(), end, LastBit()) + if Waits() then Pause(end, wait, LastBit()) else []
    }

    /** The clocks that lead up to an attempt made from a given state. */
    function Lead(from: Code, tdi: bool): seq<Event>
    {
      Goto(from, start, tdi)
    }

    /** All clocks of one attempt. */
    function Attempt(from: Code, tdi: bool, retry: bool, wait: nat): seq<Event>
    {
      (Lead(from, tdi) + ScanClocks(bits, Exits())) + Tail(retry, wait)
    }
  }

  datatype Option<T> = None | Some(value: T)

  /** What captured bytes are compared with: the expected bytes and how many of them, the mask,
      and the bytes past the captured ones that an older, longer capture left behind. */
  datatype Expect = Expect(bytes: seq<byte>, len: nat, mask: seq<byte>, stale: seq<byte>)

  ghost predicate Hit(e: Expect, got: seq<bool>, size: nat)
  {
    && e.len <= |e.bytes| && e.len <= |e.mask| && e.len <= size + |e.stale|
    && Agree(e.bytes, Packed(got, size) + e.stale, e.mask, e.len)
  }

  /** The error code of a shift whose every attempt failed: the retry counter is a byte, so 255
      retries are reported like none. */
  function FailureCode(maxRepeat: byte): int
  {
    if 0 < maxRepeat && (maxRepeat + 1) % 256 > maxRepeat then ERROR_MAXRETRIES else ERROR_TDOMISMATCH
  }

  /** How a shift ends: the clocks sent so far, the tracked state, the level of TDI, the error code and the
      capture buffer. */
  datatype Outcome = Outcome(events: seq<Event>, at: Code, tdi: bool, err: int, captured: seq<byte>)

  /** What the first hit from number k on leads to, or the last try. */
  function FirstOf(hit: nat -> bool, end: nat -> Outcome, k: nat, last: nat, was: seq<byte>): Outcome
    decreases last - k, 1, was
  {
    OneOf(hit, end, k, last, was)
  }

  function OneOf(hit: nat -> bool, end: nat -> Outcome, k: nat, last: nat, was: seq<byte>): Outcome
    decreases last - k, 0, was
  {
    if k >= last || hit(k) then end(k) else FirstOf(hit, end, k + 1, last, was)
  }

  lemma {:induction false} FirstOfIs(hit: nat -> bool, end: nat -> Outcome, k: nat, n: nat, last: nat, was: seq<byte>)
    requires k <= n <= last && (hit(n) || n == last) && forall j: nat | j < n :: !hit(j)
    ensures FirstOf(hit, end, k, last, was) == end(n)
    decreases n - k
  {
    assert FirstOf(hit, end, k, last, was) == OneOf(hit, end, k, last, was);
    if k < n { FirstOfIs(hit, end, k + 1, n, last, was); }
  }

  /** Everything that decides how a shift goes: the job, the device, and the pins and player
      state at its start. */
  datatype Run = Run(job: Job, tdo: seq<Event> -> bool, es: seq<Event>, from: Code, tdi: bool, goal: Option<Expect>,
      bytes: seq<byte>)
  {
    /** The state and TDI level that attempt number k starts from. */
    function From(k: nat): Code
    {
      if k == 0 then from else job.Settled()
    }

    function FromTdi(k: nat): bool
    {
      if k == 0 then tdi else job.LastBit()
    }

    /** An attempt that is followed by another one takes the detour, if there is time to wait at all, and waits
        for longer. */
    predicate Retries(final: bool)
    {
      job.Waits() && !final
    }

    function WaitOf(k: nat, final: bool): nat
    {
      Grown(job.time, if Retries(final) then k + 1 else k)
    }

    /** The events after the first n attempts.  Each attempt is followed by another one, except
        that the last may be final.  Events and Verdicts name the recursive Sent and Hits for use in
        contracts, where these would be unfolded. */
    function Events(n: nat, final: bool): seq<Event>
    {
      Sent(n, final)
    }

    function Sent(n: nat, final: bool): seq<Event>
      decreases n, 0, es
    {
      if n == 0 then es else SentBy(n - 1, final)
    }

    /** The events up to and including attempt number k. */
    function SentBy(k: nat, final: bool): seq<Event>
      decreases k, 1, es
    {
      Sent(k, false) + job.Attempt(From(k), FromTdi(k), Retries(final), WaitOf(k, final))
    }

    lemma {:induction false} EventsStep(k: nat, final: bool)
      ensures Events(k + 1, final)
           == Events(k, false) + job.Attempt(From(k), FromTdi(k), Retries(final), WaitOf(k, final))
    {
      assert Sent(k + 1, final) == SentBy(k, final);
    }

    /** The TDO levels that attempt number k reads. */
    function Reads(k: nat): (r: seq<bool>)
      ensures |r| == |job.bits|
    {
      Sampled(tdo, Events(k, false) + job.Lead(From(k), FromTdi(k)), job.bits, job.Exits())
    }

    /** Attempt number k matched; without an expected value every attempt does. */
    ghost predicate HitAt(k: nat)
    {
      goal.None? || Hit(goal.value, Reads(k), |bytes|)
    }

    /** One of the attempts 0 to n would match; none of the first n does. */
    ghost predicate SomeHit(n: nat)
    {
      exists k: nat :: k <= n && HitAt(k)
    }

    ghost predicate Missed(n: nat)
    {
      forall k: nat | k < n :: !HitAt(k)
    }

    /** The verdicts of the first n attempts. */
    ghost function Verdicts(n: nat): (hs: seq<bool>)
      ensures |hs| == n
    {
      Hits(n)
    }

    ghost function Hits(n: nat): (hs: seq<bool>)
      ensures |hs| == n
      decreases n, 0, es
    {
      if n == 0 then [] else HitsTo(n - 1)
    }

    ghost function HitsTo(k: nat): (hs: seq<bool>)
      ensures |hs| == k + 1
      decreases k, 1, es
    {
      Hits(k) + [HitAt(k)]
    }

    lemma {:induction false} VerdictsStep(k: nat, hit: bool)
      requires hit == HitAt(k)
      ensures Verdicts(k + 1) == Verdicts(k) + [hit]
    {
      assert Hits(k + 1) == HitsTo(k);
    }

    lemma {:induction false} VerdictsAre(n: nat, k: nat)
      requires k < n
      ensures Verdicts(n)[k] == HitAt(k)
      decreases n
    {
      var last := HitAt(n - 1);
      VerdictsStep(n - 1, last);
      AtLonger(Verdicts(n - 1), last, k);
      if k < n - 1 { VerdictsAre(n - 1, k); }
    }

    /** What the capture buffer holds after so many attempts. */
    function Captured(tries: nat, was: seq<byte>): seq<byte>
      requires tries > 0
    {
      Packed(Reads(tries - 1), |bytes|) + if |bytes| <= |was| then was[|bytes|..] else []
    }

    /** How a shift ends, as a function of how it starts. */
    ghost function Result(maxRepeat: byte, was: seq<byte>): Outcome
    {
      if job.bits == [] then
        Outcome(es + (if job.Waits() then Pause(from, job.time, tdi) else []), if job.Waits() then RUNTEST
            else from, tdi,
                ERROR_NONE, was)
      else Tried(maxRepeat, was)
    }

    /** After the first attempt that matches, or the last. */
    ghost function Tried(maxRepeat: byte, was: seq<byte>): Outcome
    {
      FirstOf((k: nat) => HitAt(k), (k: nat) => EndedBy(k, maxRepeat, was), 0, maxRepeat, was)
    }

    /** How it ends if attempt number k is the last. */
    ghost function EndedBy(k: nat, maxRepeat: byte, was: seq<byte>): Outcome
    {
      Outcome(Events(k + 1, true), job.Settled(), job.LastBit(), if HitAt(k) then ERROR_NONE
          else FailureCode(maxRepeat),
              Captured(k + 1, was))
    }

    /** How a shift ends: after at most maxRepeat retries, none of the attempts before the last
        one having matched, with success exactly if one did. */
    ghost predicate Concludes(tries: nat, maxRepeat: byte, err: int)
    {
      && 1 <= tries <= maxRepeat + 1
      && true !in Verdicts(tries - 1)
      && (true in Verdicts(tries) || tries == maxRepeat + 1)
      && err == if true in Verdicts(tries) then ERROR_NONE else FailureCode(maxRepeat)
    }

    /** Where a shift leaves the pins and the tracked state.  A shift of no bits at all only waits,
        if it has to, in Run-Test/Idle. */
    ghost predicate Ends(tries: nat, maxRepeat: byte, err: int, events: seq<Event>, at: Code, level: bool)
    {
      if job.bits == [] then
        && err == ERROR_NONE && tries == 0 && level == tdi
        && at == (if job.Waits() then RUNTEST else from)
        && events == es + if job.Waits() then Pause(from, job.time, tdi) else []
      else
        && at == job.Settled() && level == job.LastBit()
        && Concludes(tries, maxRepeat, err) && events == Events(tries, true)
    }
  }

  /** Every bit read equals the expected bit wherever the mask bit is set, and the expected
      padding is zero there. */
  ghost predicate BitsHit(e: Expect, got: seq<bool>, size: nat)
    requires size <= |e.bytes| && size <= |e.mask|
  {
    forall k: nat | k < 8 * size && BitAt(e.mask[..size], k) :: BitAt(e.bytes[..size], k) == (k < |got| && got[k])
  }

  /** That is what a match means for an expected value of the length just shifted. */
  lemma {:induction false} HitMeans(e: Expect, got: seq<bool>, size: nat)
    requires e.len == size <= |e.bytes| && size <= |e.mask| && |got| <= 8 * size
    ensures Hit(e, got, size) <==> BitsHit(e, got, size)
  {
    if Hit(e, got, size) { HitBits(e, got, size); }
    if BitsHit(e, got, size) { BitsAgree(e, got, size); }
  }

  lemma {:induction false} HitBits(e: Expect, got: seq<bool>, size: nat)
    requires e.len == size <= |e.bytes| && size <= |e.mask| && |got| <= 8 * size && Hit(e, got, size)
    ensures BitsHit(e, got, size)
  {
    var all := Packed(got, size) + e.stale;
    AgreeMeans(e.bytes, all, e.mask, size);
    forall k: nat | k < 8 * size && BitAt(e.mask[..size], k)
      ensures BitAt(e.bytes[..size], k) == (k < |got| && got[k])
    {
      var i, b := size - 1 - k / 8, k % 8;
      PackedBits(got, size, k);
      assert Bit(e.mask[i], b) && Bit(e.bytes[i], b) == Bit(all[i], b);
    }
  }

  lemma {:induction false} BitsAgree(e: Expect, got: seq<bool>, size: nat)
    requires e.len == size <= |e.bytes| && size <= |e.mask| && |got| <= 8 * size && BitsHit(e, got, size)
    ensures Hit(e, got, size)
  {
    var all := Packed(got, size) + e.stale;
    AgreeMeans(e.bytes, all, e.mask, size);
    forall i: nat, b: nat | i < size && b < 8 && Bit(e.mask[i], b) ensures Bit(e.bytes[i], b) == Bit(all[i], b) {
      var k := 8 * (size - 1 - i) + b;
      assert k / 8 == size - 1 - i && k % 8 == b;
      assert BitAt(e.mask[..size], k);
      PackedBits(got, size, k);
    }
  }

  /** The buffers of a comparison are separate from the one the capture is written to. */
  ghost predicate Comparable(captured: LenVal, expected: LenVal, mask: LenVal?)
    reads expected, mask
  {
    && expected.Valid() && expected != captured
    && (mask != null ==> mask.Valid() && mask != captured)
  }

  /** The buffers hold a job: its bits are the low bits of the TDI value, the capture buffer is
      separate from all others, and the run knows what to compare with. */
  ghost predicate Ready(run: Run, n: nat, tdi: LenVal, captured: LenVal?, expected: LenVal?, mask: LenVal?)
    reads tdi, captured, expected, mask
  {
    && run.job.Valid() && tdi.Valid() && tdi.Bytes() == run.bytes && |run.bytes| == (n + 7) / 8
    && run.job.bits == LowBits(run.bytes, n)
    && (captured != null ==> captured.Valid() && captured != tdi)
    && (expected == null ==> run.goal == None)
    && (expected != null ==>
          && captured != null && run.job.start == SHIFTDR && Comparable(captured, expected, mask)
          && run.goal == Some(Expect(expected.val, expected.len, MaskBytes(mask), captured.val[|run.bytes|..])))
  }

  lemma {:induction false} AttemptParts(job: Job, es: seq<Event>, from: Code, tdi: bool, retry: bool, wait: nat)
    requires job.Valid()
    ensures ((es + job.Lead(from, tdi)) + ScanClocks(job.bits, job.Exits())) + job.Tail(retry, wait)
         == es + job.Attempt(from, tdi, retry, wait)
  {
    var lead, scan := job.Lead(from, tdi), ScanClocks(job.bits, job.Exits());
    Assoc(es, lead, scan);
    Assoc(es, lead + scan, job.Tail(retry, wait));
  }

  class TapDriver {
    const port: Port
    var tapState: Code

    /** TMS is low whenever the tracked state is a shift state. */
    ghost predicate Poised()
      reads this, port
    {
      port.Valid() && (IsShift(tapState) ==> !port.tms)
    }

    /** The tracked state is also the state of a controller driven by the emitted clocks. */
    ghost predicate Synced()
      reads this, port
    {
      Poised() && After(port.powerOn, port.events) == StateOf(tapState)
    }

    constructor (p: Port)
      ensures port == p
    {
      port, tapState := p, RESET;
    }

    /** xsvfTmsTransition */
    method TmsTransition(tms: bool)
      requires port.Valid()
      modifies port
      ensures port.Valid() && port.tms == tms && port.tdi == old(port.tdi)
      ensures port.events == old(port.events) + [Clock(tms, port.tdi)]
    {
      port.SetPort(TMS, tms);
      port.PulseClock();
    }

    /** The reset branch of xsvfGotoTapState: TMS high for six clocks. */
    method ResetSequence()
      requires port.Valid()
      modifies this, port
      ensures port.Valid() && tapState == RESET && port.tdi == old(port.tdi)
      ensures port.events == old(port.events) + Ones(6, port.tdi)
    {
      ghost var es := port.events;
      TmsTransition(true);
      assert Ones(1, port.tdi) == [Clock(true, port.tdi)];
      for i := 0 to 5
        invariant port.Valid() && port.tms && port.tdi == old(port.tdi)
        invariant port.events == es + Ones(i + 1, port.tdi)
      {
        port.PulseClock();
        Assoc(es, Ones(i + 1, port.tdi), [Clock(true, port.tdi)]);
      }
      tapState := RESET;
    }

    /** The seek loop of xsvfGotoTapState. */
    method SeekLoop(target: Code)
      requires port.Valid() && target != RESET && !Illegal(tapState, target)
      modifies this, port
      ensures port.Valid() && tapState == target && port.tdi == old(port.tdi)
      ensures port.events == old(port.events) + Seek(old(tapState), target, port.tdi)
      ensures IsShift(target) && port.tms ==> old(tapState) == target && old(port.tms)
    {
      ghost var goal := port.events + Seek(tapState, target, port.tdi);
      while target != tapState
        invariant port.Valid() && port.tdi == old(port.tdi) && !Illegal(tapState, target)
        invariant port.events + Seek(tapState, target, port.tdi) == goal
        invariant IsShift(target) && tapState == target && port.tms ==> old(tapState) == target && old(port.tms)
        decreases |Seek(tapState, target, port.tdi)|
      {
        SeekUnfold(tapState, target, port.tdi);
        if IsShift(target) && Turn(tapState, target).1 == target { TurnIntoShift(tapState, target); }
        var (tms, next) := Turn(tapState, target);
        Assoc(port.events, [Clock(tms, port.tdi)], Seek(next, target, port.tdi));
        TmsTransition(tms);
        tapState := next;
      }
      NoMore(port.events);
    }

    /** A pause state that is already the target is left and entered again. */
    method Reenter(target: Code)
      requires port.Valid() && tapState == target && IsPause(target)
      modifies this, port
      ensures port.Valid() && tapState == target && port.tdi == old(port.tdi)
      ensures port.events == old(port.events) + Goto(target, target, port.tdi)
    {
      Assoc(port.events, [Clock(true, port.tdi)], Seek(Exit2Of(target), target, port.tdi));
      TmsTransition(true);
      tapState := Exit2Of(target);
      SeekLoop(target);
    }

    /** xsvfGotoTapState */
    method GotoTapState(target: Code) returns (err: int)
      requires port.Valid() && (target != RESET ==> Poised())
      modifies this, port
      ensures Poised() && tapState == GotoEnd(old(tapState), target)
      ensures port.events == old(port.events) + Goto(old(tapState), target, port.tdi)
      ensures port.tdi == old(port.tdi)
      ensures err == if target != RESET && Illegal(old(tapState), target) then ERROR_ILLEGALSTATE else ERROR_NONE
    {
      err := ERROR_NONE;
      if target == RESET {
        ResetSequence();
      } else if Illegal(tapState, target) {
        err := ERROR_ILLEGALSTATE;
        NoMore(port.events);
      } else if target == tapState && IsPause(target) {
        Reenter(target);
      } else {
        SeekLoop(target);
      }
    }

    /** One turn of the bit loop of xsvfShiftOnly: TDO is read while TCK is low, before the
        rising edge that moves the device on. */
    method ShiftBit(tdi: bool, raiseTms: bool, gather: bool) returns (tdo: bool)
      requires port.Valid() && !port.tms
      modifies port
      ensures port.Valid() && port.tms == raiseTms && port.tdi == tdi
      ensures port.events == old(port.events) + [Clock(raiseTms, tdi)]
      ensures gather ==> tdo == port.tdo(old(port.events))
    {
      if raiseTms { port.SetPort(TMS, true); }
      port.SetPort(TDI, tdi);
      port.SetPort(TCK, false);
      tdo := false;
      if gather { tdo := port.ReadTdoBit(); }
      port.SetPort(TCK, true);
    }

    /** The same turn within a shift: bit number count of the byte whose first bit is number off. */
    method ShiftBitAt(tdi: bool, raiseTms: bool, gather: bool, tdoByte: nat, count: nat,
                      ghost es: seq<Event>, ghost clocks: seq<Event>, ghost samples: seq<bool>, ghost off: nat)
      returns (tdoByte': nat)
      requires port.Valid() && !port.tms && off + count < |clocks| == |samples|
      requires port.events == es + clocks[..off + count] && clocks[off + count] == Clock(raiseTms, tdi)
      requires samples[off + count] == port.tdo(es + clocks[..off + count])
      requires gather ==> tdoByte == Gather(samples, off, count)
      modifies port
      ensures port.Valid() && port.tms == raiseTms && port.tdi == tdi && port.events == es + clocks[..off + count + 1]
      ensures gather ==> tdoByte' == Gather(samples, off, count + 1)
    {
      OneMore(es, clocks, off + count, Clock(raiseTms, tdi));
      var bit := ShiftBit(tdi, raiseTms, gather);
      tdoByte' := tdoByte;
      if gather && bit {
        OrFresh(tdoByte, count);
        tdoByte' := Or(tdoByte, Pow2(count));
      }
    }

    /** The byte loop of xsvfShiftOnly: clock up to eight bits of one TDI byte and gather the
        TDO bits read on the way.  The ghosts describe the whole shift: the events before it,
        its clocks, and the TDO levels it meets. */
    method ShiftByte(byteIn: byte, bitsLeft: nat, gather: bool, exit: bool,
                     ghost es: seq<Event>, ghost clocks: seq<Event>, ghost samples: seq<bool>)
        returns (tdoByte: nat, count: nat)
      requires port.Valid() && 0 < bitsLeft <= |clocks| == |samples| && !port.tms
      requires port.events == es + clocks[..|clocks| - bitsLeft]
      requires forall k | 0 <= k < |clocks| :: samples[k] == port.tdo(es + clocks[..k])
      requires forall i: nat | i < 8 && i < bitsLeft ::
                 clocks[|clocks| - bitsLeft + i] == Clock(exit && i == bitsLeft - 1, Bit(byteIn, i))
      modifies port
      ensures port.Valid() && count == if bitsLeft < 8 then bitsLeft else 8
      ensures port.events == es + clocks[..|clocks| - bitsLeft + count]
      ensures port.tms == (exit && count == bitsLeft) && port.tdi == Bit(byteIn, count - 1)
      ensures gather ==> tdoByte == Octet(samples, |clocks| - bitsLeft)
    {
      var tdiByte, left := byteIn, bitsLeft;
      ghost var off: nat := |clocks| - bitsLeft;
      count, tdoByte := 0, 0;
      while left != 0 && count < 8
        invariant count <= 8 && 0 <= left && left + count == bitsLeft
        invariant tdiByte == Shr(byteIn, count)
        invariant port.Valid() && port.events == es + clocks[..off + count]
        invariant port.tms == (count > 0 && exit && left == 0)
        invariant count > 0 ==> port.tdi == Bit(byteIn, count - 1)
        invariant gather ==> tdoByte == Gather(samples, off, count)
        decreases left
      {
        left := left - 1;
        BitShr(byteIn, count, 0);
        ShrHalf(byteIn, count);
        tdoByte := ShiftBitAt(tdiByte % 2 == 1, exit && left == 0, gather, tdoByte, count, es, clocks, samples, off);
        tdiByte := tdiByte / 2;
        count := count + 1;
      }
      if left == 0 { GatherEnds(samples, off, count, 8); }
    }

    /** How the ghosts of a shift relate to the TDI bytes: the clocks to send, the TDO levels
        met, and the bytes these pack into. */
    ghost predicate Plan(es: seq<Event>, bytes: seq<byte>, n: nat, exit: bool,
                         clocks: seq<Event>, samples: seq<bool>, packed: seq<byte>)
    {
      && |clocks| == n == |samples| && |packed| == |bytes| == (n + 7) / 8
      && (forall j | 0 <= j < |bytes| :: packed[j] == Octet(samples, 8 * (|bytes| - 1 - j)))
      && (forall k | 0 <= k < n :: clocks[k] == Clock(exit && k == n - 1, Bit(bytes[|bytes| - 1 - k / 8], k % 8)))
      && (forall k | 0 <= k < n :: samples[k] == port.tdo(es + clocks[..k]))
    }

    /** The clocks that carry one byte. */
    lemma {:induction false} PlanByte(es: seq<Event>, bytes: seq<byte>, n: nat, exit: bool,
                   clocks: seq<Event>, samples: seq<bool>, packed: seq<byte>, at: nat, left: nat)
      requires Plan(es, bytes, n, exit, clocks, samples, packed)
      requires at < |bytes| && 0 < left <= n && n - left == 8 * (|bytes| - 1 - at)
      ensures forall i: nat | i < 8 && i < left ::
                clocks[n - left + i] == Clock(exit && i == left - 1, Bit(bytes[at], i))
    {
    }

    /** One turn of the outer loop of xsvfShiftOnly. */
    method ShiftAt(byteIn: byte, left: nat, gather: bool, exit: bool, ghost es: seq<Event>, ghost bytes: seq<byte>,
        ghost n: nat,
                   ghost clocks: seq<Event>, ghost samples: seq<bool>, ghost packed: seq<byte>, ghost at: nat)
        returns (tdoByte: nat, left': nat)
      requires port.Valid() && !port.tms && Plan(es, bytes, n, exit, clocks, samples, packed)
      requires at < |bytes| && byteIn == bytes[at] && 0 < left <= n && n - left == 8 * (|bytes| - 1 - at)
      requires port.events == es + clocks[..n - left]
      modifies port
      ensures port.Valid() && left' < left && left' == (if at == 0 then 0 else left - 8)
      ensures port.events == es + clocks[..n - left']
      ensures port.tms == (exit && left' == 0) && port.tdi == clocks[n - left' - 1].tdi
      ensures gather ==> tdoByte == packed[at]
    {
      PlanByte(es, bytes, n, exit, clocks, samples, packed, at, left);
      var count;
      tdoByte, count := ShiftByte(byteIn, left, gather, exit, es, clocks, samples);
      assert clocks[n - left + (count - 1)].tdi == Bit(byteIn, count - 1);
      left' := left - count;
    }

    /** The capture from byte number at on, and what lies past it. */
    ghost predicate Filled(val: seq<byte>, at: nat, packed: seq<byte>, rest: seq<byte>)
    {
      at <= |packed| <= |val| && val[at..|packed|] == packed[at..] && val[|packed|..] == rest
    }

    lemma {:induction false} FillNext(val: seq<byte>, at: nat, packed: seq<byte>, rest: seq<byte>)
      requires at < |packed| && Filled(val, at + 1, packed, rest)
      ensures Filled(val[at := packed[at]], at, packed, rest)
    {
    }

    /** The outer loop of xsvfShiftOnly, from the least significant byte up. */
    method ShiftBytes(n: nat, tdi: LenVal, captured: LenVal?, exit: bool,
                      ghost clocks: seq<Event>, ghost samples: seq<bool>, ghost packed: seq<byte>)
      requires port.Valid() && !port.tms && tdi.Valid()
      requires captured != null ==> captured.Valid() && captured != tdi && captured.len == tdi.len
      requires Plan(port.events, tdi.Bytes(), n, exit, clocks, samples, packed)
      modifies port, captured
      ensures port.Valid() && port.events == old(port.events) + clocks
      ensures port.tms == (exit && n > 0)
      ensures port.tdi == if n > 0 then clocks[n - 1].tdi else old(port.tdi)
      ensures captured != null ==>
                && captured.Valid() && captured.len == old(captured.len) && captured.val[..tdi.len] == packed
                && captured.val[tdi.len..] == old(captured.val[tdi.len..])
    {
      ghost var es, bytes := port.events, tdi.Bytes();
      Whole(clocks);
      var left, at := n, tdi.len;
      while left != 0
        invariant 0 <= at <= tdi.len && left == if at == 0 then 0 else n - 8 * (tdi.len - at)
        invariant port.Valid() && port.events == es + clocks[..n - left]
        invariant left < n ==> port.tms == (exit && left == 0) && port.tdi == clocks[n - left - 1].tdi
        invariant left == n ==> !port.tms && port.tdi == old(port.tdi)
        invariant captured != null ==> captured.Valid() && captured.len == old(captured.len)
        invariant captured != null ==> Filled(captured.val, at, packed, old(captured.val[tdi.len..]))
      {
        at := at - 1;
        var tdoByte;
        tdoByte, left := ShiftAt(tdi.val[at], left, captured != null, exit, es, bytes, n, clocks, samples, packed, at);
        if captured != null {
          FillNext(captured.val, at, packed, old(captured.val[tdi.len..]));
          captured.val := captured.val[at := tdoByte];
        }
      }
    }

    /** xsvfShiftOnly: clock n bits of TDI, least significant first, and pack what TDO shows.
        TMS is raised for the last clock when the shift state is to be left. */
    method ShiftOnly(n: nat, tdi: LenVal, captured: LenVal?, exit: bool)
      requires port.Valid() && !port.tms && tdi.Valid() && tdi.len == (n + 7) / 8
      requires captured != null ==> captured.Valid() && captured != tdi
      modifies port, captured
      ensures port.Valid()
      ensures port.events == old(port.events) + ScanClocks(LowBits(tdi.Bytes(), n), exit)
      ensures port.tms == (exit && n > 0)
      ensures port.tdi == if n > 0 then LowBits(tdi.Bytes(), n)[n - 1] else old(port.tdi)
      ensures captured != null ==>
                && captured.Valid() && captured.len == tdi.len
                && captured.val == Packed(Sampled(port.tdo, old(port.events), LowBits(tdi.Bytes(), n), exit), tdi.len)
                                       + old(captured.val[tdi.len..])
    {
      if captured != null { captured.len := tdi.len; }
      ghost var bytes, bits := tdi.Bytes(), LowBits(tdi.Bytes(), n);
      ghost var clocks, samples := ScanClocks(bits, exit), Sampled(port.tdo, port.events, bits, exit);
      PlanHolds(port.events, bytes, n, exit);
      ShiftBytes(n, tdi, captured, exit, clocks, samples, Packed(samples, tdi.len));
      if n > 0 { ScanToAt(bits, exit, n, n - 1); }
    }

    lemma {:induction false} PlanHolds(es: seq<Event>, bytes: seq<byte>, n: nat, exit: bool)
      requires |bytes| == (n + 7) / 8
      ensures var bits := LowBits(bytes, n);
              var samples := Sampled(port.tdo, es, bits, exit);
              Plan(es, bytes, n, exit, ScanClocks(bits, exit), samples, Packed(samples, |bytes|))
    {
      var bits := LowBits(bytes, n);
      var samples := Sampled(port.tdo, es, bits, exit);
      forall j | 0 <= j < |bytes| ensures Packed(samples, |bytes|)[j] == Octet(samples, 8 * (|bytes| - 1 - j)) {
        PackedAt(samples, |bytes|, |bytes|, j);
      }
      forall k | 0 <= k < n
        ensures ScanClocks(bits, exit)[k] == Clock(exit && k == n - 1, Bit(bytes[|bytes| - 1 - k / 8], k % 8))
      {
        LowBitsAt(bytes, n, k);
        ScanToAt(bits, exit, n, k);
      }
      forall k | 0 <= k < n ensures samples[k] == port.tdo(es + ScanClocks(bits, exit)[..k]) {
        SampledAt(port.tdo, es, bits, exit, n, k);
        ScanToPrefix(bits, exit, n, k);
      }
    }

    /** To Run-Test/Idle, to wait there. */
    method WaitIdle(time: nat)
      requires Poised()
      modifies this, port
      ensures Poised() && tapState == RUNTEST && port.tdi == old(port.tdi)
      ensures port.events == old(port.events) + Pause(old(tapState), time, port.tdi)
    {
      Assoc(port.events, Goto(tapState, RUNTEST, port.tdi), [Wait(time)]);
      var _ := GotoTapState(RUNTEST);
      port.WaitTime(time);
    }

    /** The exit part of an attempt: from Exit1 through the retry detour, or to the end state,
        and on to the wait.  The time to wait grows with a retry. */
    method Finish(job: Job, waitTime: nat, retry: bool) returns (time: nat)
      requires Poised() && job.Valid() && job.Exits() && job.Waits() == (waitTime != 0)
      requires port.tdi == job.LastBit() && tapState == job.Exit1() && (retry ==> job.Waits() && job.start == SHIFTDR)
      modifies this, port
      ensures Poised() && tapState == job.Settled() && port.tdi == old(port.tdi)
      ensures time == (if retry then waitTime + waitTime / 4 else waitTime)
      ensures port.events == old(port.events) + job.Tail(retry, time)
    {
      ghost var es, b := port.events, job.LastBit();
      time := waitTime;
      if retry {
        var _ := GotoTapState(PAUSEDR);
        var _ := GotoTapState(SHIFTDR);
        time := time + time / 4;
        Assoc(es, Goto(job.Exit1(), PAUSEDR, b), Goto(PAUSEDR, SHIFTDR, b));
        Assoc(es, Goto(job.Exit1(), PAUSEDR, b) + Goto(PAUSEDR, SHIFTDR, b), Pause(SHIFTDR, time, b));
      } else {
        var _ := GotoTapState(job.end);
        Assoc(es, Goto(job.Exit1(), job.end, b), Pause(job.end, time, b));
      }
      if time != 0 { WaitIdle(time); } else { NoMore(Goto(job.Exit1(), job.end, b)); }
    }

    /** Scanning out the bits of a job leaves the tracked state in the shift state or in Exit1. */
    method Scan(job: Job, n: nat, tdi: LenVal, captured: LenVal?)
      requires Poised() && job.Valid() && tapState == job.start
      requires tdi.Valid() && tdi.len == (n + 7) / 8 && job.bits == LowBits(tdi.Bytes(), n)
      requires captured != null ==> captured.Valid() && captured != tdi
      modifies this, port, captured
      ensures Poised() && tapState == (if job.Exits() then job.Exit1() else job.start) && port.tdi == job.LastBit()
      ensures port.events == old(port.events) + ScanClocks(job.bits, job.Exits())
      ensures captured != null ==>
                && captured.Valid() && captured.len == tdi.len
                && captured.val == Packed(Sampled(port.tdo, old(port.events), job.bits, job.Exits()), tdi.len)
                                       + old(captured.val[tdi.len..])
    {
      ShiftOnly(n, tdi, captured, job.Exits());
      if job.Exits() { tapState := tapState + 1; }
    }

    /** One turn of the loop of xsvfShift: reach the shift state, scan, compare, leave. */
    method Attempt(job: Job, n: nat, tdi: LenVal, captured: LenVal?, expected: LenVal?, mask: LenVal?,
                   waitTime: nat, mayRetry: bool) returns (mismatch: bool, time: nat)
      requires Poised() && job.Valid() && job.Waits() == (waitTime != 0)
      requires tdi.Valid() && tdi.len == (n + 7) / 8 && job.bits == LowBits(tdi.Bytes(), n)
      requires captured != null ==> captured.Valid() && captured != tdi
      requires expected != null ==> captured != null && job.start == SHIFTDR && Comparable(captured, expected, mask)
      modifies this, port, captured
      ensures Poised() && tapState == job.Settled() && port.tdi == job.LastBit()
      ensures port.events == old(port.events)
                             + job.Attempt(old(tapState), old(port.tdi), mismatch && job.Waits() && mayRetry, time)
      ensures time == if mismatch && job.Waits() && mayRetry && job.Exits() then waitTime + waitTime / 4 else waitTime
      ensures captured != null ==>
                && captured.Valid() && captured.len == tdi.len
                && captured.val == Packed(Sampled(port.tdo, old(port.events) + job.Lead(old(tapState), old(port.tdi)),
                                                      job.bits, job.Exits()), tdi.len)
                                       + old(captured.val[tdi.len..])
      ensures mismatch == (expected != null && !Agree(expected.val, captured.val, MaskBytes(mask), expected.len))
    {
      ghost var es, from, pin := port.events, tapState, port.tdi;
      var _ := GotoTapState(job.start);
      Scan(job, n, tdi, captured);
      mismatch := Differs(captured, expected, mask);
      time := Leave(job, waitTime, mismatch && waitTime != 0 && mayRetry, es, from, pin);
    }

    method Differs(captured: LenVal?, expected: LenVal?, mask: LenVal?) returns (mismatch: bool)
      requires expected != null ==> captured != null && captured.Valid() && Comparable(captured, expected, mask)
      ensures mismatch == (expected != null && !Agree(expected.val, captured.val, MaskBytes(mask), expected.len))
    {
      mismatch := false;
      if expected != null {
        var equal := EqualLenVal(expected, captured, mask);
        mismatch := !equal;
      }
    }

    /** The end of an attempt, after the scan: nothing if the shift state is kept. */
    method Leave(job: Job, waitTime: nat, retry: bool, ghost es: seq<Event>, ghost from: Code, ghost pin: bool)
      returns (time: nat)
      requires Poised() && job.Valid() && job.Waits() == (waitTime != 0) &&
               (retry ==> job.Waits() && job.start == SHIFTDR)
      requires port.tdi == job.LastBit() && tapState == (if job.Exits() then job.Exit1() else job.start)
      requires port.events == (es + job.Lead(from, pin)) + ScanClocks(job.bits, job.Exits())
      modifies this, port
      ensures Poised() && tapState == job.Settled() && port.tdi == job.LastBit()
      ensures port.events == es + job.Attempt(from, pin, retry, time)
      ensures time == if retry && job.Exits() then waitTime + waitTime / 4 else waitTime
    {
      time := waitTime;
      if job.Exits() { time := Finish(job, waitTime, retry); } else { NoMore(port.events); }
      AttemptParts(job, es, from, pin, retry, time);
    }

    /** Attempt number k of a run is about to be made, none before having matched. */
    ghost predicate Primed(run: Run, k: nat, time: nat)
      reads this, port
    {
      && Timed(run.job, k, time) && Poised() && tapState == run.From(k) && port.tdi == run.FromTdi(k)
      && port.events == run.Events(k, false) && true !in run.Verdicts(k)
    }

    lemma {:induction false} PrimedFirst(run: Run)
      requires Poised() && run.es == port.events && run.from == tapState && run.tdi == port.tdi
      ensures Primed(run, 0, run.job.time)
    {
    }

    lemma {:induction false} PrimedAgain(run: Run, k: nat, time: nat)
      requires Tried(run, k, true, true, time)
      ensures Primed(run, k + 1, time)
    {
      InLonger(run.Verdicts(k), false);
    }

    /** Attempts 0 to k of a run have been made, the last of them with the given outcome. */
    ghost predicate Tried(run: Run, k: nat, mismatch: bool, more: bool, time: nat)
      reads this, port
    {
      && Timed(run.job, if mismatch && more then k + 1 else k, time) && Poised() && tapState == run.job.Settled() &&
          port.tdi == run.job.LastBit()
      && port.events == run.Events(k + 1, !(mismatch && more))
      && run.Verdicts(k + 1) == run.Verdicts(k) + [!mismatch] && true !in run.Verdicts(k)
    }

    /** This is the time to wait before attempt number k, and in its end; if the shift state is not left, there
        is no wait and the time does not matter. */
    ghost predicate Timed(job: Job, k: nat, time: nat)
    {
      job.Waits() == (time != 0) && (job.Exits() ==> time == Grown(job.time, k))
    }

    lemma {:induction false} TimedOn(job: Job, k: nat, time: nat)
      requires Timed(job, k, time)
      ensures Timed(job, k + 1, if job.Waits() && job.Exits() then time + time / 4 else time)
    {
      GrownZero(job.time, k + 1);
    }

    /** So the time grows with the run. */
    lemma {:induction false} StepTime(run: Run, k: nat, again: bool, waitTime: nat, time: nat)
      requires Timed(run.job, k, waitTime)
      requires time == if again && run.job.Waits() && run.job.Exits() then waitTime + waitTime / 4 else waitTime
      ensures Timed(run.job, if again then k + 1 else k, time)
      ensures run.Events(k + 1, !again)
           == run.Events(k, false) + run.job.Attempt(run.From(k), run.FromTdi(k), again && run.job.Waits(), time)
    {
      if again { TimedOn(run.job, k, waitTime); }
      run.EventsStep(k, !again);
      SameAttempt(run.job, run.From(k), run.FromTdi(k), again && run.job.Waits(), time, run.WaitOf(k, !again));
    }

    lemma {:induction false} SameAttempt(job: Job, from: Code, tdi: bool, retry: bool, s: nat, t: nat)
      requires job.Exits() && job.Waits() ==> s == t
      requires retry ==> job.Waits()
      ensures job.Attempt(from, tdi, retry, s) == job.Attempt(from, tdi, retry, t)
    {
    }

    /** The capture buffer ends like this. */
    ghost predicate Ending(captured: LenVal?, n: nat, rest: seq<byte>)
      reads captured
    {
      captured != null ==> n <= |captured.val| && captured.val[n..] == rest
    }

    /** The capture buffer holds what attempt number k read, and ends as before. */
    ghost predicate Holding(captured: LenVal?, run: Run, k: nat, rest: seq<byte>)
      reads captured
    {
      captured != null ==> captured.val == Packed(run.Reads(k), |run.bytes|) + rest
    }

    lemma {:induction false} HoldsRead(captured: LenVal?, run: Run, k: nat, rest: seq<byte>)
      requires captured != null ==>
                 captured.val == Packed(Sampled(run.tdo,
                     run.Events(k, false) + run.job.Lead(run.From(k), run.FromTdi(k)),
                                                run.job.bits, run.job.Exits()), |run.bytes|) + rest
      ensures Holding(captured, run, k, rest)
    {
    }

    lemma {:induction false} HoldingEnds(captured: LenVal?, run: Run, k: nat, rest: seq<byte>)
      requires Holding(captured, run, k, rest)
      ensures Ending(captured, |run.bytes|, rest)
    {
      if captured != null { Suffix(captured.val, Packed(run.Reads(k), |run.bytes|), rest); }
    }

    lemma {:induction false} TryHits(n: nat, tdi: LenVal, captured: LenVal?, expected: LenVal?, mask: LenVal?,
                                     run: Run, k: nat, rest: seq<byte>)
      requires Ready(run, n, tdi, captured, expected, mask) && Holding(captured, run, k, rest)
      requires Ending(captured, |run.bytes|, rest)
      ensures run.HitAt(k) <==> expected == null || Agree(expected.val, captured.val, MaskBytes(mask), expected.len)
    {
    }

    /** Attempt number k of a run. */
    method Try(n: nat, tdi: LenVal, captured: LenVal?, expected: LenVal?, mask: LenVal?, runTestTime: nat,
        waitTime: nat,
               mayRetry: bool, start: Code, end: Code, ghost run: Run, ghost k: nat, ghost rest: seq<byte>)
      returns (mismatch: bool, time: nat)
      requires Primed(run, k, waitTime) && Ready(run, n, tdi, captured, expected, mask)
      requires Ending(captured, |run.bytes|, rest) && run.tdo == port.tdo
      requires run.job.time == runTestTime && run.job.start == start && run.job.end == end
      modifies this, port, captured
      ensures Ready(run, n, tdi, captured, expected, mask) && Tried(run, k, mismatch, mayRetry, time)
      ensures Holding(captured, run, k, rest)
    {
      var job := Job(start, end, LowBits(tdi.Bytes(), n), runTestTime);
      mismatch, time := MakeAttempt(job, n, tdi, captured, expected, mask, waitTime, mayRetry, run, k, rest);
      HoldingEnds(captured, run, k, rest);
      TryHits(n, tdi, captured, expected, mask, run, k, rest);
      run.VerdictsStep(k, !mismatch);
    }

    /** The same, in terms of the run's clocks and readings. */
    method MakeAttempt(job: Job, n: nat, tdi: LenVal, captured: LenVal?, expected: LenVal?, mask: LenVal?,
                       waitTime: nat, mayRetry: bool, ghost run: Run, ghost k: nat, ghost rest: seq<byte>)
      returns (mismatch: bool, time: nat)
      requires Primed(run, k, waitTime) && Ready(run, n, tdi, captured, expected, mask)
      requires Ending(captured, |run.bytes|, rest) && run.job == job && run.tdo == port.tdo
      modifies this, port, captured
      ensures Ready(run, n, tdi, captured, expected, mask) && Holding(captured, run, k, rest)
      ensures Poised() && tapState == job.Settled() && port.tdi == job.LastBit()
      ensures port.events == run.Events(k + 1, !(mismatch && mayRetry))
      ensures Timed(job, if mismatch && mayRetry then k + 1 else k, time)
      ensures mismatch == (expected != null && !Agree(expected.val, captured.val, MaskBytes(mask), expected.len))
    {
      mismatch, time := Attempt(job, n, tdi, captured, expected, mask, waitTime, mayRetry);
      StepTime(run, k, mismatch && mayRetry, waitTime, time);
      HoldsRead(captured, run, k, rest);
      HoldingEnds(captured, run, k, rest);
    }

    /** The loop of xsvfShift: attempts are made until one matches or the repeat count is used up.
        The second result is the repeat counter at the last attempt. */
    method Retry(n: nat, tdi: LenVal, captured: LenVal?, expected: LenVal?, mask: LenVal?, runTestTime: nat,
                 maxRepeat: byte, start: Code, end: Code, ghost run: Run, ghost rest: seq<byte>)
      returns (mismatch: bool, repeat: nat, time: nat)
      requires Poised() && Ready(run, n, tdi, captured, expected, mask) && Ending(captured, |run.bytes|, rest)
      requires run.job.time == runTestTime && run.job.start == start && run.job.end == end
      requires run.tdo == port.tdo && run.es == port.events && run.from == tapState && run.tdi == port.tdi
      modifies this, port, captured
      ensures (captured != null ==> captured.Valid()) && Tried(run, repeat, mismatch, false, time)
      ensures repeat <= maxRepeat && (mismatch ==> repeat == maxRepeat) && Holding(captured, run, repeat, rest)
    {
      PrimedFirst(run);
      time, repeat := runTestTime, 0;
      mismatch, time := Try(n, tdi, captured, expected, mask, runTestTime, time, repeat < maxRepeat, start, end, run, 0,
                                  rest);
      while mismatch && repeat < maxRepeat
        invariant Ready(run, n, tdi, captured, expected, mask) && Holding(captured, run, repeat, rest)
        invariant Tried(run, repeat, mismatch, repeat < maxRepeat, time) && repeat <= maxRepeat
        decreases maxRepeat - repeat
      {
        PrimedAgain(run, repeat, time);
        HoldingEnds(captured, run, repeat, rest);
        repeat := repeat + 1;
        mismatch, time := Try(n, tdi, captured, expected, mask, runTestTime, time, repeat < maxRepeat, start, end, run,
                                    repeat, rest);
      }
    }

    /** xsvfShift on at least one bit.  The ghost result counts the attempts. */
    method ShiftLoop(n: nat, tdi: LenVal, captured: LenVal?, expected: LenVal?, mask: LenVal?, runTestTime: nat,
                     maxRepeat: byte, start: Code, end: Code, ghost run: Run, ghost rest: seq<byte>)
      returns (err: int, ghost tries: nat)
      requires Poised() && Ready(run, n, tdi, captured, expected, mask) && Ending(captured, |run.bytes|, rest)
      requires run.job.time == runTestTime && run.job.start == start && run.job.end == end
      requires run.tdo == port.tdo && run.es == port.events && run.from == tapState && run.tdi == port.tdi
      modifies this, port, captured
      ensures Poised() && (captured != null ==> captured.Valid())
      ensures tapState == run.job.Settled() && port.tdi == run.job.LastBit()
      ensures run.Concludes(tries, maxRepeat, err) && port.events == run.Events(tries, true)
      ensures Holding(captured, run, tries - 1, rest)
    {
      var mismatch, repeat, _ := Retry(n, tdi, captured, expected, mask, runTestTime, maxRepeat, start, end, run, rest);
      tries := repeat + 1;
      err := ERROR_NONE;
      if mismatch {
        repeat := (repeat + 1) % 256;
        err := if maxRepeat != 0 && repeat > maxRepeat then ERROR_MAXRETRIES else ERROR_TDOMISMATCH;
      }
    }

    /** What a shift compares with: the expected bytes, the mask, and what the capture buffer holds
        past the bytes about to be captured. */
    ghost function GoalOf(captured: LenVal?, expected: LenVal?, mask: LenVal?, len: nat): Option<Expect>
      requires expected != null ==> captured != null && expected.Valid() && captured.Valid() && len <= MAX_LEN
      requires mask != null ==> mask.Valid()
      reads captured, expected, mask
    {
      if expected == null then None else Some(Expect(expected.val, expected.len, MaskBytes(mask), captured.val[len..]))
    }

    /** xsvfShift on no bits at all: only the wait, if any, in Run-Test/Idle. */
    method IdleWait(runTestTime: nat)
      requires Synced()
      modifies this, port
      ensures Synced() && port.tdi == old(port.tdi) && tapState == (if runTestTime != 0 then RUNTEST else old(tapState))
      ensures port.events == old(port.events) +
                             if runTestTime != 0 then Pause(old(tapState), runTestTime, port.tdi) else []
    {
      NoMore(port.events);
      if runTestTime != 0 {
        PauseReaches(StateOf(tapState), tapState, runTestTime, port.tdi);
        AfterConcat(port.powerOn, port.events, Pause(tapState, runTestTime, port.tdi));
        WaitIdle(runTestTime);
      }
    }

    lemma {:induction false} CapturedIs(run: Run, tries: nat, was: seq<byte>, now: seq<byte>, rest: seq<byte>)
      requires tries > 0 && |run.bytes| <= |was| && rest == was[|run.bytes|..]
      requires now == Packed(run.Reads(tries - 1), |run.bytes|) + rest
      ensures now == run.Captured(tries, was)
    {
    }

    /** xsvfShift. */
    method Shift(start: Code, n: nat, tdi: LenVal, captured: LenVal?, expected: LenVal?, mask: LenVal?,
                 end: Code, runTestTime: nat, maxRepeat: byte) returns (err: int, ghost tries: nat, ghost run: Run)
      requires Synced() && tdi.Valid() && tdi.len == (n + 7) / 8
      requires IsShift(start) && end != RESET && end != EXIT2DR && end != EXIT2IR
      requires captured != null ==> captured.Valid() && captured != tdi
      requires mask != null ==> mask.Valid()
      requires expected != null ==> captured != null && start == SHIFTDR && Comparable(captured, expected, mask)
      modifies this, port, captured
      ensures Synced() && (captured != null ==> captured.Valid())
      ensures run == Run(Job(start, end, LowBits(tdi.Bytes(), n), runTestTime), port.tdo, old(port.events),
                         old(tapState), old(port.tdi), old(GoalOf(captured, expected, mask, tdi.len)), tdi.Bytes())
      ensures run.Ends(tries, maxRepeat, err, port.events, tapState, port.tdi)
      ensures captured != null ==>
                captured.val == if tries == 0 then old(captured.val) else run.Captured(tries, old(captured.val))
    {
      ghost var es := port.events;
      run := Run(Job(start, end, LowBits(tdi.Bytes(), n), runTestTime), port.tdo, es, tapState,
                 port.tdi, GoalOf(captured, expected, mask, tdi.len), tdi.Bytes());
      if n == 0 {
        err, tries := ERROR_NONE, 0;
        IdleWait(runTestTime);
      } else {
        ghost var rest := if captured == null then [] else captured.val[tdi.len..];
        err, tries := ShiftLoop(n, tdi, captured, expected, mask, runTestTime, maxRepeat, start, end, run, rest);
        RunReaches(run, port.powerOn, tries, true);
        if captured != null { CapturedIs(run, tries, old(captured.val), captured.val, rest); }
      }
    }

    /** The same as a function of how it starts; was is the capture buffer, or what may stand for it. */
    method ShiftResult(start: Code, n: nat, tdi: LenVal, captured: LenVal?, expected: LenVal?, mask: LenVal?,
                       end: Code, runTestTime: nat, maxRepeat: byte, ghost was: seq<byte>)
                           returns (err: int, ghost run: Run)
      requires Synced() && tdi.Valid() && tdi.len == (n + 7) / 8
      requires IsShift(start) && end != RESET && end != EXIT2DR && end != EXIT2IR
      requires captured != null ==> captured.Valid() && captured != tdi && was == captured.val
      requires mask != null ==> mask.Valid()
      requires expected != null ==> captured != null && start == SHIFTDR && Comparable(captured, expected, mask)
      modifies this, port, captured
      ensures Synced() && (captured != null ==> captured.Valid())
      ensures run == Run(Job(start, end, LowBits(tdi.Bytes(), n), runTestTime), port.tdo, old(port.events),
                         old(tapState), old(port.tdi), old(GoalOf(captured, expected, mask, tdi.len)), tdi.Bytes())
      ensures var o := run.Result(maxRepeat, was);
              && port.events == o.events && tapState == o.at && port.tdi == o.tdi && err == o.err
              && (captured != null ==> captured.val == o.captured) && (expected == null ==> err == ERROR_NONE)
    {
      ghost var tries;
      err, tries, run := Shift(start, n, tdi, captured, expected, mask, end, runTestTime, maxRepeat);
      OutcomeIs(run, tries, maxRepeat, err, port.events, tapState, port.tdi, was);
      if expected == null && n > 0 { Unopposed(run, tries, maxRepeat, err); }
    }
  }

  /** One attempt takes the reference controller where the player says. */
  lemma {:induction false} AttemptReaches(job: Job, s: State, from: Code, tdi: bool, retry: bool, wait: nat)
    requires job.Valid() && s == StateOf(from) && (retry ==> job.Waits())
    ensures After(s, job.Attempt(from, tdi, retry, wait)) == StateOf(job.Settled())
  {
    var lead, scan, tail := job.Lead(from, tdi), ScanClocks(job.bits, job.Exits()), job.Tail(retry, wait);
    AfterConcat(s, lead + scan, tail);
    ScanReaches(job, s, from, tdi);
    if job.Exits() {
      TailReaches(job, retry, wait);
    }
  }

  lemma {:induction false} ScanReaches(job: Job, s: State, from: Code, tdi: bool)
    requires job.Valid() && s == StateOf(from)
    ensures After(s, job.Lead(from, tdi) + ScanClocks(job.bits, job.Exits()))
         == StateOf(if job.Exits() then job.Exit1() else job.start)
  {
    AfterGoto(s, from, job.start, tdi, ScanClocks(job.bits, job.Exits()));
    ScanStays(StateOf(job.start), job.bits, job.Exits(), |job.bits|);
  }

  /** A wait takes place where it should. */
  lemma {:induction false} PauseReaches(s: State, from: Code, time: nat, b: bool)
    requires s == StateOf(from)
    ensures After(s, Pause(from, time, b)) == RunTestIdle
  {
    GotoReaches(s, from, RUNTEST, b);
    AfterSnoc(s, Goto(from, RUNTEST, b), Wait(time));
  }

  lemma {:induction false} TailReaches(job: Job, retry: bool, wait: nat)
    requires job.Valid() && job.Exits() && (retry ==> job.Waits())
    ensures After(StateOf(job.Exit1()), job.Tail(retry, wait)) == StateOf(job.Settled())
  {
    var s, b := StateOf(job.Exit1()), job.LastBit();
    if retry {
      DetourReaches(s, job.Exit1(), wait, b);
    } else if job.Waits() {
      AfterGoto(s, job.Exit1(), job.end, b, Pause(job.end, wait, b));
      PauseReaches(StateOf(job.end), job.end, wait, b);
    } else {
      NoMore(Goto(job.Exit1(), job.end, b));
      GotoReaches(s, job.Exit1(), job.end, b);
    }
  }

  /** The way of a retry, through Pause-DR and Shift-DR to Run-Test/Idle. */
  lemma {:induction false} DetourReaches(s: State, from: Code, wait: nat, b: bool)
    requires s == StateOf(from)
    ensures After(s, (Goto(from, PAUSEDR, b) + Goto(PAUSEDR, SHIFTDR, b)) + Pause(SHIFTDR, wait, b)) == RunTestIdle
  {
    AfterGoto(s, from, PAUSEDR, b, Goto(PAUSEDR, SHIFTDR, b));
    GotoReaches(PauseDR, PAUSEDR, SHIFTDR, b);
    AfterConcat(s, Goto(from, PAUSEDR, b) + Goto(PAUSEDR, SHIFTDR, b), Pause(SHIFTDR, wait, b));
    PauseReaches(ShiftDR, SHIFTDR, wait, b);
  }

  lemma {:induction false} AfterGoto(s: State, from: Code, to: Code, tdi: bool, rest: seq<Event>)
    requires s == StateOf(from) && to != RESET && to != EXIT2DR && to != EXIT2IR
    ensures After(s, Goto(from, to, tdi) + rest) == After(StateOf(to), rest)
  {
    AfterConcat(s, Goto(from, to, tdi), rest);
    GotoReaches(s, from, to, tdi);
  }

  /** However many attempts a shift makes, the reference controller stays with the player. */
  lemma {:induction false} RunReaches(run: Run, s: State, n: nat, final: bool)
    requires run.job.Valid() && After(s, run.es) == StateOf(run.from)
    ensures After(s, run.Events(n, final)) == StateOf(run.From(n))
    decreases n
  {
    if n > 0 {
      RunReaches(run, s, n - 1, false);
      OneMoreReaches(run, s, n - 1, final);
    }
  }

  lemma {:induction false} OneMoreReaches(run: Run, s: State, n: nat, final: bool)
    requires run.job.Valid() && After(s, run.Events(n, false)) == StateOf(run.From(n))
    ensures After(s, run.Events(n + 1, final)) == StateOf(run.job.Settled())
  {
    run.EventsStep(n, final);
    StepReaches(run.job, s, run.Events(n, false), run.From(n), run.FromTdi(n), run.Retries(final), run.WaitOf(n, final),
                run.Events(n + 1, final));
  }

  lemma {:induction false} StepReaches(job: Job, s: State, es: seq<Event>, from: Code, tdi: bool, retry: bool,
                                       wait: nat, after: seq<Event>)
    requires job.Valid() && After(s, es) == StateOf(from) && (retry ==> job.Waits())
    requires after == es + job.Attempt(from, tdi, retry, wait)
    ensures After(s, after) == StateOf(job.Settled())
  {
    AfterConcat(s, es, job.Attempt(from, tdi, retry, wait));
    AttemptReaches(job, StateOf(from), from, tdi, retry, wait);
  }

  /** A shift with r retries allowed succeeds exactly if one of the first r+1 attempts would
      match, and it stops at the first that does. */
  lemma {:induction false} ConcludesMeans(run: Run, tries: nat, maxRepeat: byte, err: int)
    requires run.Concludes(tries, maxRepeat, err)
    ensures err == ERROR_NONE <==> run.SomeHit(maxRepeat)
    ensures run.Missed(tries - 1)
    ensures err == ERROR_NONE <==> run.HitAt(tries - 1)
    ensures err != ERROR_NONE ==> tries == maxRepeat + 1 && err == FailureCode(maxRepeat)
  {
    Stopped(run, tries, maxRepeat, err);
    Decided(run, tries, maxRepeat, err == ERROR_NONE);
  }

  lemma {:induction false} Decided(run: Run, tries: nat, r: nat, hit: bool)
    requires 1 <= tries <= r + 1 && run.Missed(tries - 1) && (hit <==> run.HitAt(tries - 1)) &&
             (!hit ==> tries == r + 1)
    ensures hit <==> run.SomeHit(r)
  {
    if !hit {
      MissedMore(run, r);
      MissedAll(run, r);
    }
  }

  lemma {:induction false} MissedAt(run: Run, n: nat, k: nat)
    requires run.Missed(n) && k < n
    ensures !run.HitAt(k)
  {
  }

  lemma {:induction false} MissedMore(run: Run, n: nat)
    requires run.Missed(n) && !run.HitAt(n)
    ensures run.Missed(n + 1)
  {
    forall k: nat | k < n + 1 ensures !run.HitAt(k) { if k == n {} }
  }

  lemma {:induction false} MissedAll(run: Run, n: nat)
    requires run.Missed(n + 1)
    ensures !run.SomeHit(n)
  {
  }

  /** A shift without an expected value is one attempt. */
  lemma {:induction false} EndsOnce(run: Run)
    requires run.goal.None? && run.job.bits != []
    ensures run.Ends(1, 0, ERROR_NONE, run.Events(1, true), run.job.Settled(), run.job.LastBit())
  {
    run.VerdictsStep(0, true);
    assert run.Verdicts(1) == run.Verdicts(0) + [true];
    assert run.Verdicts(1)[0];
  }

  /** Everything about how a shift ends is that function of how it starts. */
  lemma {:induction false} OutcomeIs(run: Run, tries: nat, maxRepeat: byte, err: int, events: seq<Event>, at: Code,
                                     level: bool, was: seq<byte>)
    requires run.Ends(tries, maxRepeat, err, events, at, level)
    ensures run.Result(maxRepeat, was)
         == Outcome(events, at, level, err, if tries == 0 then was else run.Captured(tries, was))
  {
    if run.job.bits != [] { ConclusionOf(run, tries, maxRepeat, err, was); }
  }

  lemma {:induction false} ConclusionOf(run: Run, tries: nat, maxRepeat: byte, err: int, was: seq<byte>)
    requires run.job.bits != [] && run.Concludes(tries, maxRepeat, err)
    ensures run.Result(maxRepeat, was)
         == Outcome(run.Events(tries, true), run.job.Settled(), run.job.LastBit(), err, run.Captured(tries, was))
  {
    StoppedSettles(run, tries, maxRepeat, err);
    ConclusionIs(run, tries, maxRepeat, err, was);
  }

  lemma {:induction false} ConclusionIs(run: Run, tries: nat, maxRepeat: byte, err: int, was: seq<byte>)
    requires 0 < tries <= maxRepeat + 1
    requires run.Missed(tries - 1) && Settles(run, tries - 1, maxRepeat, err)
    ensures run.Tried(maxRepeat, was)
         == Outcome(run.Events(tries, true), run.job.Settled(), run.job.LastBit(), err, run.Captured(tries, was))
  {
    EndedIs(run, tries, maxRepeat, err, was);
    FirstOfIs((k: nat) => run.HitAt(k), (k: nat) => run.EndedBy(k, maxRepeat, was), 0, tries - 1, maxRepeat, was);
  }

  /** Attempt number k decides the outcome. */
  ghost predicate Settles(run: Run, k: nat, maxRepeat: byte, err: int)
  {
    && (err == ERROR_NONE <==> run.HitAt(k))
    && (err != ERROR_NONE ==> k == maxRepeat && err == FailureCode(maxRepeat))
  }

  /** The first of the allowed attempts that matches, or the last. */
  lemma {:induction false} DecidingAttempt(run: Run, k: nat, maxRepeat: nat) returns (n: nat)
    requires k <= maxRepeat && run.Missed(k)
    ensures n <= maxRepeat && run.Missed(n) && (run.HitAt(n) || n == maxRepeat)
    decreases maxRepeat - k
  {
    if run.HitAt(k) || k == maxRepeat {
      n := k;
    } else {
      MissedMore(run, k);
      n := DecidingAttempt(run, k + 1, maxRepeat);
    }
  }

  /** The result is success exactly if one of the allowed attempts would match, and otherwise tells by its
      code how many were allowed. */
  lemma {:induction false} ResultMeans(run: Run, maxRepeat: byte, was: seq<byte>)
    requires run.job.bits != []
    ensures run.Result(maxRepeat, was).err == ERROR_NONE <==> run.SomeHit(maxRepeat)
    ensures run.Result(maxRepeat, was).err == ERROR_MAXRETRIES <==> !run.SomeHit(maxRepeat) && 1 <= maxRepeat <= 254
    ensures run.Result(maxRepeat, was).err in {ERROR_NONE, ERROR_MAXRETRIES, ERROR_TDOMISMATCH}
  {
    var n := DecidingAttempt(run, 0, maxRepeat);
    var err := if run.HitAt(n) then ERROR_NONE else FailureCode(maxRepeat);
    ConclusionIs(run, n + 1, maxRepeat, err, was);
    CodeMeans(run, n, maxRepeat, err);
  }

  lemma {:induction false} CodeMeans(run: Run, n: nat, maxRepeat: byte, err: int)
    requires n <= maxRepeat && run.Missed(n) && Settles(run, n, maxRepeat, err)
    ensures err == ERROR_NONE <==> run.SomeHit(maxRepeat)
    ensures err == ERROR_MAXRETRIES <==> !run.SomeHit(maxRepeat) && 1 <= maxRepeat <= 254
    ensures err in {ERROR_NONE, ERROR_MAXRETRIES, ERROR_TDOMISMATCH}
  {
    Decided(run, n + 1, maxRepeat, err == ERROR_NONE);
  }

  lemma {:induction false} StoppedSettles(run: Run, tries: nat, maxRepeat: byte, err: int)
    requires run.Concludes(tries, maxRepeat, err)
    ensures run.Missed(tries - 1) && Settles(run, tries - 1, maxRepeat, err)
  {
    Stopped(run, tries, maxRepeat, err);
  }

  lemma {:induction false} EndedIs(run: Run, tries: nat, maxRepeat: byte, err: int, was: seq<byte>)
    requires tries > 0 && Settles(run, tries - 1, maxRepeat, err)
    ensures run.EndedBy(tries - 1, maxRepeat, was)
         == Outcome(run.Events(tries, true), run.job.Settled(), run.job.LastBit(), err, run.Captured(tries, was))
  {
  }

  /** A shift that fails reports exhausted retries for 1 to 254 allowed retries and a mismatch for none;
      for 255 the byte that counts them has wrapped, and it reports a mismatch too. */
  lemma {:induction false} FailureMeans(run: Run, tries: nat, maxRepeat: byte, err: int)
    requires run.Concludes(tries, maxRepeat, err) && err != ERROR_NONE
    ensures tries == maxRepeat + 1
    ensures err == ERROR_MAXRETRIES <==> 1 <= maxRepeat <= 254
    ensures err == ERROR_TDOMISMATCH <==> maxRepeat == 0 || maxRepeat == 255
  {
    ConcludesMeans(run, tries, maxRepeat, err);
  }

  lemma {:induction false} Stopped(run: Run, tries: nat, maxRepeat: byte, err: int)
    requires run.Concludes(tries, maxRepeat, err)
    ensures err == ERROR_NONE <==> run.HitAt(tries - 1)
    ensures run.Missed(tries - 1)
    ensures err != ERROR_NONE ==> tries == maxRepeat + 1
    ensures err != ERROR_NONE ==> err == FailureCode(maxRepeat)
  {
    NoHitsBefore(run, tries - 1);
    LastVerdict(run, tries - 1);
  }

  /** Without an expected value a shift succeeds. */
  lemma {:induction false} Unopposed(run: Run, tries: nat, maxRepeat: byte, err: int)
    requires run.Concludes(tries, maxRepeat, err) && run.goal.None?
    ensures err == ERROR_NONE
  {
    Stopped(run, tries, maxRepeat, err);
  }

  lemma {:induction false} LastVerdict(run: Run, k: nat)
    requires true !in run.Verdicts(k)
    ensures true in run.Verdicts(k + 1) <==> run.HitAt(k)
  {
    var last := run.HitAt(k);
    run.VerdictsStep(k, last);
    InLonger(run.Verdicts(k), last);
  }

  lemma {:induction false} AtLonger(init: seq<bool>, last: bool, k: nat)
    requires k <= |init|
    ensures (init + [last])[k] == if k < |init| then init[k] else last
  {
  }

  lemma {:induction false} InLonger(init: seq<bool>, last: bool)
    ensures true in init + [last] <==> true in init || last
  {
  }

  lemma {:induction false} NoHitsBefore(run: Run, n: nat)
    requires true !in run.Verdicts(n)
    ensures run.Missed(n)
  {
    forall k: nat | k < n ensures !run.HitAt(k) {
      run.VerdictsAre(n, k);
      assert run.Verdicts(n)[k] in run.Verdicts(n);
    }
  }

  lemma {:induction false} Suffix<T>(whole: seq<T>, a: seq<T>, b: seq<T>)
    requires whole == a + b
    ensures whole[|a|..] == b
  {
  }
}
