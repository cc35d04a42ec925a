/** jtag/ports.c: the shadow word behind the JTAG pins, and the pin activity a device on the
    other side of the register can observe. */
module Ports {
  import opened Tap

  /** A 16-bit word, bit 0 first. */
  type Word = w: seq<bool> | |w| == 16 witness seq(16, _ => false)

  // Bit numbers in the shadow word: each pin has a bit and a complement bit.
  const TDI_BIT := 1
  const TMS_BIT := 2
  const TCK_BIT := 3
  const BAR := 4

  datatype Pin = TCK | TMS | TDI

  function PinBit(p: Pin): nat
  {
    match p case TDI => TDI_BIT case TMS => TMS_BIT case TCK => TCK_BIT
  }

  /** The byte swap applied to every word on its way to and from the register. */
  function Swap(word: Word): Word
  {
    word[8..] + word[..8]
  }

  /** The word read back is the word written. */
  lemma {:induction false} SwapTwice(word: Word)
    ensures Swap(Swap(word)) == word
  {
  }

  /** The port.  Its events are the rising TCK edges and the pauses, and TDO is an arbitrary function of
      them, latched by the device whenever TCK is low: section 4.5 of IEEE Std 1149.1-2001
      has TDO change only on the falling edge. */
  class Port {
    const tdo: seq<Event> -> bool
    ghost const powerOn: State
    var jtag: Word
    var reg: Word
    var tms: bool
    var tdi: bool
    var tck: bool
    var events: seq<Event>
    var latched: seq<Event>

    ghost function Level(p: Pin): bool
      reads this
    {
      match p case TMS => tms case TDI => tdi case TCK => tck
    }

    /** Each pin's bit of the shadow word shows its level and the complement bit the opposite. */
    ghost predicate Mirrored()
      reads this
    {
      forall p: Pin :: jtag[PinBit(p)] == Level(p) == !jtag[PinBit(p) + BAR]
    }

    ghost predicate Valid()
      reads this
    {
      !tck ==> latched == events
    }

    /** The shadow word starts as 0x0F. */
    constructor (device: seq<Event> -> bool, start: State)
      ensures Valid() && Mirrored() && tms && tdi && tck
      ensures events == [] && tdo == device && powerOn == start
    {
      tdo, powerOn := device, start;
      jtag := seq(16, i => i < 4);
      reg := Swap(seq(16, i => i < 4));
      tms, tdi, tck := true, true, true;
      events, latched := [], [];
    }

    /** setPort: drive one pin, writing the whole shadow word to the register. */
    method SetPort(p: Pin, val: bool)
      requires Valid()
      modifies this
      ensures Valid()
      ensures tms == if p == TMS then val else old(tms)
      ensures tdi == if p == TDI then val else old(tdi)
      ensures tck == if p == TCK then val else old(tck)
      ensures events == if p == TCK && val && !old(tck) then old(events) + [Clock(tms, tdi)] else old(events)
      ensures old(Mirrored()) ==> Mirrored()
      ensures Swap(reg) == jtag
      ensures jtag[0] == old(jtag)[0] && jtag[4] == old(jtag)[4] && jtag[8..] == old(jtag)[8..]
    {
      var rising := p == TCK && val && !tck;
      var on, off := if val then PinBit(p) else PinBit(p) + BAR, if val then PinBit(p) + BAR else PinBit(p);
      jtag := jtag[on := true][off := false];
      match p {
        case TMS => tms := val;
        case TDI => tdi := val;
        case TCK => tck := val;
      }
      reg := Swap(jtag);
      SwapTwice(jtag);
      if rising { events := events + [Clock(tms, tdi)]; }
      if !tck { latched := events; }
    }

    /** So the levels stand in the high byte of the register: TDI, TMS and TCK in bits 1 to 3 of it, and their
        opposites in bits 5 to 7. */
    lemma {:induction false} PinsShown()
      requires Mirrored() && Swap(reg) == jtag
      ensures reg[8 + 1] == tdi && reg[8 + 2] == tms && reg[8 + 3] == tck
      ensures reg[8 + 5] == !tdi && reg[8 + 6] == !tms && reg[8 + 7] == !tck
    {
      SwapTwice(reg);
      assert jtag[PinBit(TDI)] == tdi && jtag[PinBit(TMS)] == tms && jtag[PinBit(TCK)] == tck;
      assert jtag[1] == reg[9] && jtag[2] == reg[10] && jtag[3] == reg[11];
      assert jtag[5] == reg[13] && jtag[6] == reg[14] && jtag[7] == reg[15];
    }

    /** readTDOBit */
    method ReadTdoBit() returns (b: bool)
      requires Valid()
      ensures b == tdo(latched)
      ensures !tck ==> b == tdo(events)
    {
      b := tdo(latched);
    }

    /** waitTime: TCK is left low, so a wait clocks nothing. */
    method WaitTime(microsec: nat)
      requires Valid()
      modifies this
      ensures Valid() && events == old(events) + [Wait(microsec)] && !tck && tms == old(tms) && tdi == old(tdi)
    {
      SetPort(TCK, false);
      events := events + [Wait(microsec)];
      latched := events;
    }

    /** pulseClock: exactly one rising edge, whatever level TCK was at. */
    method PulseClock()
      requires Valid()
      modifies this
      ensures Valid() && tck && tms == old(tms) && tdi == old(tdi)
      ensures events == old(events) + [Clock(tms, tdi)]
    {
      SetPort(TCK, false);
      SetPort(TCK, true);
    }
  }
}
