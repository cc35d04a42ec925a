/** The trigger and counter configuration records of ctr/driver/ctrdrvr-pci.c, with the masks of
    ctr/driver/ctrhard.h. */
module Records {
  import opened Bits
  import opened Packing

  const WORD: nat := 32

  const TRIG_CONDITION_MASK := 0xC0000000
  const TRIG_MACHINE_MASK := 0x38000000
  const TRIG_COUNTER_MASK := 0x07800000
  const TRIG_GROUP_NUMBER_MASK := 0x007F0000
  const TRIG_GROUP_VALUE_MASK := 0x0000FFFF

  const CONFIG_ON_ZERO_MASK := 0xC0000000
  const CONFIG_START_MASK := 0x38000000
  const CONFIG_MODE_MASK := 0x06000000
  const CONFIG_CLOCK_MASK := 0x01C00000
  const CONFIG_PULSE_WIDTH_MASK := 0x003FFFFF

  /** The fields in the order the code combines them. */
  function TriggerFields(): seq<Field>
  {
    [Field(0, 16), Field(30, 2), Field(27, 3), Field(23, 4), Field(16, 7)]
  }

  function ConfigFields(): seq<Field>
  {
    [Field(0, 22), Field(22, 3), Field(25, 2), Field(27, 3), Field(30, 2)]
  }

  lemma {:induction false} Pow2Small()
    ensures Pow2(2) == 4 && Pow2(3) == 8 && Pow2(4) == 16 && Pow2(7) == 128 && Pow2(16) == 0x1_0000 &&
            Pow2(22) == 0x40_0000
    ensures Pow2(23) == 0x80_0000 && Pow2(25) == 0x200_0000 && Pow2(27) == 0x800_0000 && Pow2(30) == 0x4000_0000
  {
  }

  lemma {:induction false} ShlPow2(x: nat, n: nat)
    ensures Shl(x, n) == x * Pow2(n)
  {
    if n > 0 { ShlPow2(x, n - 1); }
  }

  lemma {:induction false} FieldMask(f: Field)
    ensures f.Mask() == (Pow2(f.n) - 1) * Pow2(f.at)
  {
    ShlPow2(Pow2(f.n) - 1, f.at);
  }

  /** The masks of the header are those of the fields. */
  lemma {:induction false} TriggerMasks()
    ensures Field(0, 16).Mask() == TRIG_GROUP_VALUE_MASK && Field(30, 2).Mask() == TRIG_CONDITION_MASK
    ensures Field(27, 3).Mask() == TRIG_MACHINE_MASK && Field(23, 4).Mask() == TRIG_COUNTER_MASK
    ensures Field(16, 7).Mask() == TRIG_GROUP_NUMBER_MASK
  {
    Pow2Small();
    FieldMask(Field(0, 16));
    FieldMask(Field(30, 2));
    FieldMask(Field(27, 3));
    FieldMask(Field(23, 4));
    FieldMask(Field(16, 7));
  }

  lemma {:induction false} ConfigMasks()
    ensures Field(0, 22).Mask() == CONFIG_PULSE_WIDTH_MASK && Field(22, 3).Mask() == CONFIG_CLOCK_MASK
    ensures Field(25, 2).Mask() == CONFIG_MODE_MASK && Field(27, 3).Mask() == CONFIG_START_MASK
    ensures Field(30, 2).Mask() == CONFIG_ON_ZERO_MASK
  {
    Pow2Small();
    FieldMask(Field(0, 22));
    FieldMask(Field(22, 3));
    FieldMask(Field(25, 2));
    FieldMask(Field(27, 3));
    FieldMask(Field(30, 2));
  }

  /** The fields of each record divide up the whole word. */
  lemma {:induction false} FieldsTile(fs: seq<Field>, w: nat)
    requires w == WORD && (fs == TriggerFields() || fs == ConfigFields())
    ensures Tiles(fs, w)
  {
    forall b: nat | b < w ensures Tiled(fs, b) {
      assert fs[0].Holds(b) || fs[1].Holds(b) || fs[2].Holds(b) || fs[3].Holds(b) || fs[4].Holds(b);
    }
  }

  // ----- the records -----

  datatype Trigger = Trigger(ctim: nat, frame: nat, condition: nat, machine: nat, counter: nat, groupNumber: nat,
      groupValue: nat)
  {
    function Values(): (vs: seq<nat>)
      ensures |vs| == 5
    {
      [groupValue, condition, machine, counter, groupNumber]
    }
  }

  datatype HwTrigger = HwTrigger(frame: nat, trigger: nat)

  datatype Config = Config(onZero: nat, start: nat, mode: nat, clock: nat, pulseWidth: nat, delay: nat)
  {
    function Values(): (vs: seq<nat>)
      ensures |vs| == 5
    {
      [pulseWidth, clock, mode, start, onZero]
    }
  }

  datatype HwConfig = HwConfig(config: nat, delay: nat)

  /** What each field of a trigger becomes in the word. */
  ghost predicate ShowsTrigger(word: nat, t: Trigger)
  {
    && Under(word, TRIG_CONDITION_MASK, t.condition) && Under(word, TRIG_MACHINE_MASK, t.machine)
    && Under(word, TRIG_COUNTER_MASK, t.counter) && Under(word, TRIG_GROUP_NUMBER_MASK, t.groupNumber)
    && Under(word, TRIG_GROUP_VALUE_MASK, t.groupValue)
  }

  lemma {:induction false} TriggerShows(t: Trigger)
    ensures ShowsTrigger(Pack(TriggerFields(), t.Values(), WORD, 5), t)
  {
    var fs, vs := TriggerFields(), t.Values();
    TriggerParts(fs, vs, t);
    forall i: nat | i < 5 ensures fs[i].Mask() > 0 && Under(Pack(fs, vs, WORD, 5), fs[i].Mask(), vs[i]) {
      FieldUnder(fs, vs, WORD, i);
    }
  }

  /** And of a counter configuration. */
  ghost predicate ShowsConfig(word: nat, c: Config)
  {
    && Under(word, CONFIG_ON_ZERO_MASK, c.onZero) && Under(word, CONFIG_START_MASK, c.start)
    && Under(word, CONFIG_MODE_MASK, c.mode) && Under(word, CONFIG_CLOCK_MASK, c.clock)
    && Under(word, CONFIG_PULSE_WIDTH_MASK, c.pulseWidth)
  }

  lemma {:induction false} ConfigParts(fs: seq<Field>, vs: seq<nat>, c: Config)
    requires fs == ConfigFields() && vs == c.Values()
    ensures Tiles(fs, WORD) && |fs| == |vs| == 5 && Pack(fs, vs, WORD, 0) == 0
    ensures fs[0].Mask() == CONFIG_PULSE_WIDTH_MASK && fs[1].Mask() == CONFIG_CLOCK_MASK &&
            fs[2].Mask() == CONFIG_MODE_MASK
    ensures fs[3].Mask() == CONFIG_START_MASK && fs[4].Mask() == CONFIG_ON_ZERO_MASK
    ensures vs[0] == c.pulseWidth && vs[1] == c.clock && vs[2] == c.mode && vs[3] == c.start && vs[4] == c.onZero
  {
    FieldsTile(fs, WORD);
    ConfigMasks();
  }

  lemma {:induction false} ConfigShows(c: Config)
    ensures ShowsConfig(Pack(ConfigFields(), c.Values(), WORD, 5), c)
  {
    var fs, vs := ConfigFields(), c.Values();
    ConfigParts(fs, vs, c);
    forall i: nat | i < 5 ensures fs[i].Mask() > 0 && Under(Pack(fs, vs, WORD, 5), fs[i].Mask(), vs[i]) {
      FieldUnder(fs, vs, WORD, i);
    }
  }

  /** One more field of a word. */
  method Add(word: nat, mask: nat, value: nat, ghost fs: seq<Field>, ghost vs: seq<nat>, ghost k: nat) returns (r: nat)
    requires Tiles(fs, WORD) && |vs| == |fs| && k < |fs| && mask == fs[k].Mask() && value == vs[k]
    requires word == Pack(fs, vs, WORD, k)
    ensures r == Pack(fs, vs, WORD, k + 1)
  {
    MaskMeans(fs[k], WORD);
    var placed := AutoShiftLeft(mask, value, WORD);
    r := Or(word, placed);
  }

  /** One field read from a word. */
  method Get(word: nat, mask: nat, ghost f: Field) returns (r: nat)
    requires f.n > 0 && f.at + f.n <= WORD && mask == f.Mask() && word < Pow2(WORD)
    ensures r == Picked(f, word)
  {
    MaskMeans(f, WORD);
    r := AutoShiftRight(mask, word, WORD);
  }

  lemma {:induction false} TriggerParts(fs: seq<Field>, vs: seq<nat>, t: Trigger)
    requires fs == TriggerFields() && vs == t.Values()
    ensures Tiles(fs, WORD) && |fs| == |vs| == 5 && Pack(fs, vs, WORD, 0) == 0
    ensures fs[0].Mask() == TRIG_GROUP_VALUE_MASK && fs[1].Mask() == TRIG_CONDITION_MASK &&
            fs[2].Mask() == TRIG_MACHINE_MASK
    ensures fs[3].Mask() == TRIG_COUNTER_MASK && fs[4].Mask() == TRIG_GROUP_NUMBER_MASK
    ensures vs[0] == t.groupValue && vs[1] == t.condition && vs[2] == t.machine && vs[3] == t.counter &&
            vs[4] == t.groupNumber
  {
    FieldsTile(fs, WORD);
    TriggerMasks();
  }

  method TriggerToHard(t: Trigger) returns (h: HwTrigger)
    ensures h == HwTrigger(t.frame, Pack(TriggerFields(), t.Values(), WORD, 5)) && ShowsTrigger(h.trigger, t)
  {
    ghost var fs, vs := TriggerFields(), t.Values();
    TriggerParts(fs, vs, t);
    var word := Add(0, TRIG_GROUP_VALUE_MASK, t.groupValue, fs, vs, 0);
    word := Add(word, TRIG_CONDITION_MASK, t.condition, fs, vs, 1);
    word := Add(word, TRIG_MACHINE_MASK, t.machine, fs, vs, 2);
    word := Add(word, TRIG_COUNTER_MASK, t.counter, fs, vs, 3);
    word := Add(word, TRIG_GROUP_NUMBER_MASK, t.groupNumber, fs, vs, 4);
    h := HwTrigger(t.frame, word);
    TriggerShows(t);
  }

  /** The event number is not part of the hardware form; the caller fills it in. */
  method HardToTrigger(h: HwTrigger, ctim: nat) returns (t: Trigger)
    requires h.trigger < Pow2(WORD)
    ensures t.ctim == ctim && t.frame == h.frame && t.Values() == Unpack(TriggerFields(), h.trigger, 5)
    ensures ShowsTrigger(h.trigger, t)
  {
    ghost var fs := TriggerFields();
    TriggerMasks();
    var groupValue := Get(h.trigger, TRIG_GROUP_VALUE_MASK, fs[0]);
    var condition := Get(h.trigger, TRIG_CONDITION_MASK, fs[1]);
    var machine := Get(h.trigger, TRIG_MACHINE_MASK, fs[2]);
    var counter := Get(h.trigger, TRIG_COUNTER_MASK, fs[3]);
    var groupNumber := Get(h.trigger, TRIG_GROUP_NUMBER_MASK, fs[4]);
    t := Trigger(ctim, h.frame, condition, machine, counter, groupNumber, groupValue);
    Unpacked(fs, h.trigger, t.Values());
    ReadTriggerShows(t, h.trigger);
  }

  method ConfigToHard(c: Config) returns (h: HwConfig)
    ensures h == HwConfig(Pack(ConfigFields(), c.Values(), WORD, 5), c.delay) && ShowsConfig(h.config, c)
  {
    ghost var fs, vs := ConfigFields(), c.Values();
    ConfigParts(fs, vs, c);
    var word := Add(0, CONFIG_PULSE_WIDTH_MASK, c.pulseWidth, fs, vs, 0);
    word := Add(word, CONFIG_CLOCK_MASK, c.clock, fs, vs, 1);
    word := Add(word, CONFIG_MODE_MASK, c.mode, fs, vs, 2);
    word := Add(word, CONFIG_START_MASK, c.start, fs, vs, 3);
    word := Add(word, CONFIG_ON_ZERO_MASK, c.onZero, fs, vs, 4);
    h := HwConfig(word, c.delay);
    ConfigShows(c);
  }

  method HardToConfig(h: HwConfig) returns (c: Config)
    requires h.config < Pow2(WORD)
    ensures c.delay == h.delay && c.Values() == Unpack(ConfigFields(), h.config, 5)
    ensures ShowsConfig(h.config, c)
  {
    ghost var fs := ConfigFields();
    ConfigMasks();
    var onZero := Get(h.config, CONFIG_ON_ZERO_MASK, fs[4]);
    var start := Get(h.config, CONFIG_START_MASK, fs[3]);
    var mode := Get(h.config, CONFIG_MODE_MASK, fs[2]);
    var clock := Get(h.config, CONFIG_CLOCK_MASK, fs[1]);
    var pulseWidth := Get(h.config, CONFIG_PULSE_WIDTH_MASK, fs[0]);
    c := Config(onZero, start, mode, clock, pulseWidth, h.delay);
    Unpacked(fs, h.config, c.Values());
    ReadConfigShows(c, h.config);
  }

  lemma {:induction false} ReadTriggerShows(t: Trigger, x: nat)
    requires x < Pow2(WORD) && t.Values() == Unpack(TriggerFields(), x, 5)
    ensures ShowsTrigger(x, t)
  {
    FieldsTile(TriggerFields(), WORD);
    WordRoundTrip(TriggerFields(), x, WORD);
    TriggerShows(t);
  }

  lemma {:induction false} ReadConfigShows(c: Config, x: nat)
    requires x < Pow2(WORD) && c.Values() == Unpack(ConfigFields(), x, 5)
    ensures ShowsConfig(x, c)
  {
    FieldsTile(ConfigFields(), WORD);
    WordRoundTrip(ConfigFields(), x, WORD);
    ConfigShows(c);
  }

  lemma {:induction false} Unpacked(fs: seq<Field>, x: nat, vs: seq<nat>)
    requires |fs| == |vs| && forall i | 0 <= i < |fs| :: vs[i] == Picked(fs[i], x)
    ensures vs == Unpack(fs, x, |fs|)
  {
    forall i | 0 <= i < |fs| ensures vs[i] == Unpack(fs, x, |fs|)[i] { UnpackAt(fs, x, |fs|, i); }
  }

  // ----- round trips -----

  ghost predicate InRange(fs: seq<Field>, vs: seq<nat>)
    requires |fs| == |vs|
  {
    forall i | 0 <= i < |fs| :: vs[i] < Pow2(fs[i].n)
  }

  /** Packing and unpacking a record gives it back exactly if all its fields are in range; and
      unpacking and packing any hardware word gives back the word. */
  lemma {:induction false} RoundTrip(fs: seq<Field>, vs: seq<nat>, x: nat, w: nat)
    requires w == WORD && (fs == TriggerFields() || fs == ConfigFields()) && |vs| == |fs| && x < Pow2(w)
    ensures Unpack(fs, Pack(fs, vs, w, |fs|), |fs|) == vs <==> InRange(fs, vs)
    ensures Pack(fs, Unpack(fs, x, |fs|), w, |fs|) == x
  {
    FieldsTile(fs, w);
    WordRoundTrip(fs, x, w);
    var y := Pack(fs, vs, w, |fs|);
    forall i: nat | i < |fs| ensures Unpack(fs, y, |fs|)[i] == vs[i] <==> vs[i] < Pow2(fs[i].n) {
      FieldRoundTrip(fs, vs, w, i);
      UnpackAt(fs, y, |fs|, i);
    }
  }

  /** A trigger whose fields are in range survives the trip through the hardware table. */
  method TriggerThroughHardware(t: Trigger) returns (back: Trigger)
    ensures back == t <==> InRange(TriggerFields(), t.Values())
    ensures back.ctim == t.ctim && back.frame == t.frame
  {
    var h := TriggerToHard(t);
    Survives(TriggerFields(), t.Values(), WORD);
    back := HardToTrigger(h, t.ctim);
  }

  method ConfigThroughHardware(c: Config) returns (back: Config)
    ensures back == c <==> InRange(ConfigFields(), c.Values())
    ensures back.delay == c.delay
  {
    var h := ConfigToHard(c);
    Survives(ConfigFields(), c.Values(), WORD);
    back := HardToConfig(h);
  }

  lemma {:induction false} Survives(fs: seq<Field>, vs: seq<nat>, w: nat)
    requires w == WORD && (fs == TriggerFields() || fs == ConfigFields()) && |vs| == |fs|
    ensures Pack(fs, vs, w, |fs|) < Pow2(w)
    ensures Unpack(fs, Pack(fs, vs, w, |fs|), |fs|) == vs <==> InRange(fs, vs)
  {
    FieldsTile(fs, w);
    PackRange(fs, vs, w, |fs|);
    RoundTrip(fs, vs, Pack(fs, vs, w, |fs|), w);
  }
}
