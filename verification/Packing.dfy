/** How ctr/driver/ctrdrvr-pci.c packs API records into the bit fields of hardware words.  The width of
    an unsigned int is a parameter; the records use 32 bits. */
module Packing {
  import opened Bits
  import Masking

  // ----- shifting to and from a mask -----

  /** Trailing zeros of a non-zero number. */
  function Tz(m: nat): nat
    requires m > 0
  {
    if m % 2 == 1 then 0 else Tz(m / 2) + 1
  }

  /** The shift of a signed int: the top bit is copied. */
  function Asr(m: nat, w: nat): nat
    requires w > 0
  {
    m / 2 + if Bit(m, w - 1) then Pow2(w - 1) else 0
  }

  lemma {:induction false} AsrBit(m: nat, w: nat, k: nat)
    requires w > 0 && m < Pow2(w) && k < w
    ensures Asr(m, w) < Pow2(w) && Bit(Asr(m, w), k) == Bit(m, if k + 1 < w then k + 1 else k)
  {
    assert Bit(m / 2, k) == Bit(m, k + 1);
    if k + 1 == w { BitBeyond(m, w, k + 1); }
    if Bit(m, w - 1) {
      assert m / 2 < Pow2(w - 1);
      OrFresh(m / 2, w - 1);
      BitOr(m / 2, Pow2(w - 1), k);
      BitPow2(w - 1, k);
    }
  }

  /** Bits of a mask that has been shifted i times as a signed int. */
  ghost predicate Shifted(mask: nat, m: nat, i: nat, w: nat)
  {
    m < Pow2(w) && forall k: nat | k < w :: Bit(m, k) == Bit(mask, if k + i < w then k + i else w - 1)
  }

  lemma {:induction false} ShiftedOnce(mask: nat, m: nat, i: nat, w: nat)
    requires w > 0 && Shifted(mask, m, i, w)
    ensures Shifted(mask, Asr(m, w), i + 1, w)
  {
    AsrBit(m, w, 0);
    forall k: nat | k < w ensures Bit(Asr(m, w), k) == Bit(mask, if k + (i + 1) < w then k + (i + 1) else w - 1) {
      AsrBit(m, w, k);
    }
  }

  lemma {:induction false} TzBit(m: nat, i: nat)
    requires m > 0
    ensures Bit(m, Tz(m)) && (i < Tz(m) ==> !Bit(m, i))
  {
    if m % 2 == 0 && i > 0 { TzBit(m / 2, i - 1); }
    else if m % 2 == 0 { TzBit(m / 2, 0); }
  }

  lemma {:induction false} TzBelow(m: nat, w: nat)
    requires 0 < m < Pow2(w)
    ensures Tz(m) < w
  {
    if m % 2 == 0 { TzBelow(m / 2, w - 1); }
  }

  lemma {:induction false} TzUnique(m: nat, i: nat)
    requires m > 0 && Bit(m, i) && forall j: nat | j < i :: !Bit(m, j)
    ensures Tz(m) == i
  {
    TzBit(m, i);
  }

  /** The search for the lowest bit of a mask has come to position i. */
  ghost predicate Searching(mask: nat, m: nat, i: nat, w: nat)
  {
    && i <= w && Shifted(mask, m, i, w)
    && if mask == 0 then m == 0 else i <= Tz(mask) < w
  }

  lemma {:induction false} SearchOn(mask: nat, m: nat, i: nat, w: nat)
    requires i < w && Searching(mask, m, i, w)
    ensures if m % 2 == 1 then mask > 0 && i == Tz(mask) else Searching(mask, Asr(m, w), i + 1, w)
  {
    assert Bit(m, 0) == Bit(mask, i);
    ShiftedOnce(mask, m, i, w);
    if mask > 0 { TzBit(mask, i); } else { BitZero(w - 1); }
  }

  /** The loop shared by both functions: it stops at the lowest bit of the mask, with the mask shifted
      down to it; a mask without bits is gone through to its end. */
  method LowestBit(mask: nat, w: nat) returns (i: nat, m: nat)
    requires mask < Pow2(w)
    ensures if mask == 0 then i == w && m == 0 else i == Tz(mask) && Shifted(mask, m, i, w)
  {
    if mask > 0 { TzBelow(mask, w); }
    i, m := 0, mask;
    while i < w
      invariant Searching(mask, m, i, w)
      decreases w - i
    {
      SearchOn(mask, m, i, w);
      if m % 2 == 1 { break; }
      m := Asr(m, w);
      i := i + 1;
    }
  }

  /** AutoShiftLeft.  Without a mask nothing is left of the value, wherever it is shifted to. */
  method AutoShiftLeft(mask: nat, value: nat, w: nat) returns (r: nat)
    requires mask < Pow2(w)
    ensures r == if mask == 0 then 0 else And(Low(Shl(value, Tz(mask)), w), mask)
  {
    var i, _ := LowestBit(mask, w);
    r := And(Low(Shl(value, i), w), mask);
  }

  /** AutoShiftRight: although the mask is shifted as a signed number, this is the masked value moved
      down by the mask's trailing zeros; without a mask it is zero. */
  method AutoShiftRight(mask: nat, value: nat, w: nat) returns (r: nat)
    requires mask < Pow2(w) && value < Pow2(w)
    ensures r == if mask == 0 then 0 else Shr(And(value, mask), Tz(mask))
  {
    var i, m := LowestBit(mask, w);
    r := And(Shr(value, i), m);
    if mask == 0 { return; }
    forall k: nat | k < w ensures Bit(r, k) == Bit(Shr(And(value, mask), i), k) {
      BitAnd(Shr(value, i), m, k);
      BitShr(value, i, k);
      BitShr(And(value, mask), i, k);
      BitAnd(value, mask, i + k);
      if k + i >= w { BitBeyond(value, w, k + i); }
    }
    SameBits(r, Shr(And(value, mask), i), w);
  }

  // ----- bit fields -----

  /** n bits from position at on. */
  datatype Field = Field(at: nat, n: nat)
  {
    function Mask(): nat
    {
      Shl(Pow2(n) - 1, at)
    }

    predicate Holds(b: nat)
    {
      at <= b < at + n
    }
  }

  lemma {:induction false} OnesBit(n: nat, k: nat)
    ensures Bit(Pow2(n) - 1, k) <==> k < n
  {
    if n == 0 { BitZero(k); }
    else if k > 0 {
      OnesBit(n - 1, k - 1);
      assert (Pow2(n) - 1) / 2 == Pow2(n - 1) - 1;
    }
  }

  lemma {:induction false} MaskBit(f: Field, k: nat)
    ensures Bit(f.Mask(), k) <==> f.Holds(k)
  {
    BitShl(Pow2(f.n) - 1, f.at, k);
    if k >= f.at { OnesBit(f.n, k - f.at); }
  }

  lemma {:induction false} ShlRange(x: nat, n: nat, w: nat)
    requires x < Pow2(w)
    ensures Shl(x, n) < Pow2(w + n)
  {
    if n > 0 { ShlRange(x, n - 1, w); }
  }

  lemma {:induction false} MaskMeans(f: Field, w: nat)
    requires f.n > 0 && f.at + f.n <= w
    ensures 0 < f.Mask() < Pow2(w) && Tz(f.Mask()) == f.at
  {
    ShlRange(Pow2(f.n) - 1, f.at, f.n);
    Pow2Monotone(f.n + f.at, w);
    forall j: nat ensures Bit(f.Mask(), j) <==> f.Holds(j) { MaskBit(f, j); }
    if f.Mask() == 0 { BitZero(f.at); }
    TzUnique(f.Mask(), f.at);
  }

  /** What AutoShiftLeft and AutoShiftRight compute for a field's mask. */
  function Placed(f: Field, v: nat, w: nat): nat
  {
    And(Low(Shl(v, f.at), w), f.Mask())
  }

  function Picked(f: Field, x: nat): nat
  {
    Shr(And(x, f.Mask()), f.at)
  }

  lemma {:induction false} PlacedBit(f: Field, v: nat, w: nat, k: nat)
    requires f.at + f.n <= w
    ensures Bit(Placed(f, v, w), k) == (f.Holds(k) && Bit(v, k - f.at))
  {
    BitAnd(Low(Shl(v, f.at), w), f.Mask(), k);
    BitLow(Shl(v, f.at), w, k);
    BitShl(v, f.at, k);
    MaskBit(f, k);
  }

  lemma {:induction false} PickedBit(f: Field, x: nat, k: nat)
    ensures Bit(Picked(f, x), k) == (k < f.n && Bit(x, f.at + k))
  {
    BitShr(And(x, f.Mask()), f.at, k);
    BitAnd(x, f.Mask(), f.at + k);
    MaskBit(f, f.at + k);
  }

  // ----- records -----

  /** Fields of a word that do not overlap. */
  ghost predicate Disjoint(fs: seq<Field>, w: nat)
  {
    && (forall i | 0 <= i < |fs| :: fs[i].n > 0 && fs[i].at + fs[i].n <= w)
    && (forall i, j | 0 <= i < |fs| && 0 <= j < |fs| && i != j :: Apart(fs[i], fs[j]))
  }

  /** And leave no bit out. */
  ghost predicate Tiles(fs: seq<Field>, w: nat)
  {
    Disjoint(fs, w) && forall b: nat | b < w :: Tiled(fs, b)
  }

  predicate Apart(f: Field, g: Field)
  {
    f.at + f.n <= g.at || g.at + g.n <= f.at
  }

  ghost predicate Tiled(fs: seq<Field>, b: nat)
  {
    exists i :: 0 <= i < |fs| && fs[i].Holds(b)
  }

  /** The word holding the first k values. */
  function Pack(fs: seq<Field>, vs: seq<nat>, w: nat, k: nat): nat
    requires k <= |fs| == |vs|
  {
    if k == 0 then 0 else Or(Pack(fs, vs, w, k - 1), Placed(fs[k - 1], vs[k - 1], w))
  }

  lemma {:induction false} PackBit(fs: seq<Field>, vs: seq<nat>, w: nat, k: nat, i: nat, b: nat)
    requires Disjoint(fs, w) && |vs| == |fs| && k <= |fs| && i < |fs| && fs[i].Holds(b)
    ensures Bit(Pack(fs, vs, w, k), b) == (i < k && Bit(vs[i], b - fs[i].at))
  {
    if k == 0 {
      BitZero(b);
    } else {
      PackBit(fs, vs, w, k - 1, i, b);
      BitOr(Pack(fs, vs, w, k - 1), Placed(fs[k - 1], vs[k - 1], w), b);
      PlacedBit(fs[k - 1], vs[k - 1], w, b);
      assert k - 1 != i ==> Apart(fs[i], fs[k - 1]);
    }
  }

  lemma {:induction false} PackRange(fs: seq<Field>, vs: seq<nat>, w: nat, k: nat)
    requires Disjoint(fs, w) && |vs| == |fs| && k <= |fs|
    ensures Pack(fs, vs, w, k) < Pow2(w)
  {
    if k > 0 {
      PackRange(fs, vs, w, k - 1);
      MaskMeans(fs[k - 1], w);
      OrRange(Pack(fs, vs, w, k - 1), Placed(fs[k - 1], vs[k - 1], w), w);
    }
  }

  /** Reading a field of a packed word gives back the field's low bits, so it gives back the field
      exactly if the field was in range. */
  lemma {:induction false} FieldRoundTrip(fs: seq<Field>, vs: seq<nat>, w: nat, i: nat)
    requires Disjoint(fs, w) && |vs| == |fs| && i < |fs|
    ensures Picked(fs[i], Pack(fs, vs, w, |fs|)) == Low(vs[i], fs[i].n)
    ensures Picked(fs[i], Pack(fs, vs, w, |fs|)) == vs[i] <==> vs[i] < Pow2(fs[i].n)
  {
    var f, x := fs[i], Pack(fs, vs, w, |fs|);
    forall k: nat ensures Bit(Picked(f, x), k) == Bit(Low(vs[i], f.n), k) {
      PickedBit(f, x, k);
      BitLow(vs[i], f.n, k);
      if k < f.n { PackBit(fs, vs, w, |fs|, i, f.at + k); }
    }
    var y, z := Picked(f, x), Low(vs[i], f.n);
    Masking.Pow2Exceeds(y + z);
    SameBits(y, z, y + z);
    if vs[i] < Pow2(f.n) { LowSame(vs[i], f.n); }
  }

  /** The bits of a word under a mask are the low bits of a value. */
  predicate Under(word: nat, mask: nat, value: nat)
    requires mask > 0
  {
    And(word, mask) == And(Shl(value, Tz(mask)), mask)
  }

  lemma {:induction false} FieldUnder(fs: seq<Field>, vs: seq<nat>, w: nat, i: nat)
    requires Disjoint(fs, w) && |vs| == |fs| && i < |fs|
    ensures fs[i].Mask() > 0 && Under(Pack(fs, vs, w, |fs|), fs[i].Mask(), vs[i])
  {
    var f, x := fs[i], Pack(fs, vs, w, |fs|);
    MaskMeans(f, w);
    var y, z := And(x, f.Mask()), And(Shl(vs[i], f.at), f.Mask());
    forall k: nat ensures Bit(y, k) == Bit(z, k) {
      BitAnd(x, f.Mask(), k);
      BitAnd(Shl(vs[i], f.at), f.Mask(), k);
      MaskBit(f, k);
      BitShl(vs[i], f.at, k);
      if f.Holds(k) { PackBit(fs, vs, w, |fs|, i, k); }
    }
    Masking.Pow2Exceeds(y + z);
    SameBits(y, z, y + z);
  }

  lemma {:induction false} LowSame(x: nat, w: nat)
    requires x < Pow2(w)
    ensures Low(x, w) == x
  {
    if w > 0 { LowSame(x / 2, w - 1); }
  }

  /** The values read from a word. */
  function Unpack(fs: seq<Field>, x: nat, k: nat): (vs: seq<nat>)
    requires k <= |fs|
    ensures |vs| == k
  {
    if k == 0 then [] else Unpack(fs, x, k - 1) + [Picked(fs[k - 1], x)]
  }

  lemma {:induction false} UnpackAt(fs: seq<Field>, x: nat, k: nat, i: nat)
    requires i < k <= |fs|
    ensures Unpack(fs, x, k)[i] == Picked(fs[i], x)
  {
    if i < k - 1 { UnpackAt(fs, x, k - 1, i); }
  }

  /** Every word is the packing of what is read from it. */
  lemma {:induction false} WordRoundTrip(fs: seq<Field>, x: nat, w: nat)
    requires Tiles(fs, w) && x < Pow2(w)
    ensures Pack(fs, Unpack(fs, x, |fs|), w, |fs|) == x
  {
    var vs := Unpack(fs, x, |fs|);
    PackRange(fs, vs, w, |fs|);
    forall b: nat | b < w ensures Bit(Pack(fs, vs, w, |fs|), b) == Bit(x, b) {
      assert Tiled(fs, b);
      var i: nat :| i < |fs| && fs[i].Holds(b);
      PackBit(fs, vs, w, |fs|, i, b);
      UnpackAt(fs, x, |fs|, i);
      PickedBit(fs[i], x, b - fs[i].at);
    }
    SameBits(Pack(fs, vs, w, |fs|), x, w);
  }
}
