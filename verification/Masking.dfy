/** xsvfDoSDRMasking of jtag/micro.c: one step of the XSDRINC compression.  The address mask is
    added to the previous TDI value, then the bits selected by the data mask are overwritten,
    least significant first, by the next data. */
module Masking {
  import opened Bits
  import opened LenVals

  /** Mask bits set below position b of a byte. */
  function ByteRank(m: byte, b: nat): (r: nat)
    ensures r <= b
  {
    if b == 0 then 0 else ByteRank(m, b - 1) + if Bit(m, b - 1) then 1 else 0
  }

  /** Mask bits set below position k of a byte string. */
  function Rank(mask: seq<byte>, k: nat): (r: nat)
    requires k <= 8 * |mask|
    ensures r <= k
    decreases k, 0
  {
    if k == 0 then 0 else RankThrough(mask, k - 1)
  }

  /** Mask bits set up to and including position k. */
  function RankThrough(mask: seq<byte>, k: nat): (r: nat)
    requires k < 8 * |mask|
    ensures r <= k + 1
    decreases k, 1
  {
    Rank(mask, k) + if BitAt(mask, k) then 1 else 0
  }

  function Popcount(mask: seq<byte>): nat
  {
    Rank(mask, 8 * |mask|)
  }

  lemma {:induction false} RankInByte(mask: seq<byte>, at: nat, b: nat)
    requires at < |mask| && b <= 8
    ensures Rank(mask, 8 * (|mask| - 1 - at) + b) == Rank(mask, 8 * (|mask| - 1 - at)) + ByteRank(mask[at], b)
  {
    if b > 0 {
      RankInByte(mask, at, b - 1);
      var k := 8 * (|mask| - 1 - at) + (b - 1);
      assert k / 8 == |mask| - 1 - at && k % 8 == b - 1;
      assert Rank(mask, k + 1) == RankThrough(mask, k);
    }
  }

  lemma {:induction false} RankMonotone(mask: seq<byte>, k: nat, l: nat)
    requires k <= l <= 8 * |mask|
    ensures Rank(mask, k) <= Rank(mask, l)
    ensures k < l && BitAt(mask, k) ==> Rank(mask, k) < Rank(mask, l)
  {
    if k < l {
      RankMonotone(mask, k, l - 1);
      assert Rank(mask, l) == RankThrough(mask, l - 1);
    }
  }

  lemma {:induction false} ByteRankDone(m: byte, i: nat, n: nat)
    requires i <= n && Shr(m, i) == 0
    ensures ByteRank(m, n) == ByteRank(m, i)
  {
    if i < n {
      ByteRankDone(m, i, n - 1);
      BitShr(m, i, n - 1 - i);
      BitZero(n - 1 - i);
    }
  }

  /** Where the reading of the next data stands after c bits, r of them from the byte fetched
      last: its index, the byte itself, and the mask selecting its next bit, which is zero when
      a new byte must be fetched. */
  ghost predicate Cursor(next: seq<byte>, c: nat, r: nat, at: int, current: byte, mask: byte)
  {
    && 0 <= at <= |next| && r < 8 && (r != 0 ==> at < |next| && current == next[at])
    && c == (if r == 0 then 8 * (|next| - at) else 8 * (|next| - 1 - at) + r)
    && mask == if r == 0 then 0 else Pow2(r)
  }

  lemma {:induction false} BitAtPlace(s: seq<byte>, at: nat, r: nat)
    requires at < |s| && r < 8
    ensures BitAt(s, 8 * (|s| - 1 - at) + r) == Bit(s[at], r)
  {
  }

  lemma {:induction false} Pow2Byte(i: nat)
    requires i < 8
    ensures Pow2(i) < 256 && (i < 7 ==> 2 * Pow2(i) < 256) && (i == 7 ==> 2 * Pow2(i) == 256)
  {
    Pow2Eight();
    Pow2Monotone(i, 7);
    if i < 7 { Pow2Monotone(i + 1, 7); }
  }

  lemma {:induction false} AndPow2(x: nat, i: nat)
    ensures And(x, Pow2(i)) != 0 <==> Bit(x, i)
  {
    BitAnd(x, Pow2(i), i);
    BitPow2(i, i);
    if Bit(x, i) {
      if And(x, Pow2(i)) == 0 { BitZero(i); }
    } else if And(x, Pow2(i)) != 0 {
      var w := x + 1;
      Pow2Exceeds(x + 1);
      var b := SomeBit(And(x, Pow2(i)), w);
      BitAnd(x, Pow2(i), b);
      BitPow2(i, b);
    }
  }

  lemma {:induction false} Pow2Exceeds(n: nat)
    ensures n < Pow2(n)
  {
    if n > 0 { Pow2Exceeds(n - 1); }
  }

  /** Fetch-and-test of the next data bit: the bit at the cursor, and the cursor moved on. */
  method NextBit(next: seq<byte>, at: int, current: byte, mask: byte, ghost c: nat, ghost r: nat)
      returns (bit: bool, at': int, current': byte, mask': byte, ghost r': nat)
    requires c < 8 * |next| && Cursor(next, c, r, at, current, mask)
    ensures bit == BitAt(next, c) && Cursor(next, c + 1, r', at', current', mask')
  {
    at', current', mask' := at, current, mask;
    if mask == 0 {
      at', current', mask' := at - 1, next[at - 1], 1;
    }
    BitAtPlace(next, at', r);
    AndPow2(current', r);
    Pow2Byte(r);
    bit := And(current', mask') != 0;
    mask' := 2 * mask' % 256;
    r' := if r == 7 then 0 else r + 1;
  }

  lemma {:induction false} SetBitAt(x: byte, i: nat, b: nat)
    requires i < 8
    ensures Or(x, Pow2(i)) < 256 && Bit(Or(x, Pow2(i)), b) == (b == i || Bit(x, b))
  {
    Pow2Eight();
    Pow2Byte(i);
    OrRange(x, Pow2(i), 8);
    BitOr(x, Pow2(i), b);
    BitPow2(i, b);
  }

  lemma {:induction false} ClearBitAt(x: byte, i: nat, b: nat)
    ensures Bit(AndNot(x, Pow2(i)), b) == (b != i && Bit(x, b))
  {
    BitAndNot(x, Pow2(i), b);
    BitPow2(i, b);
  }

  lemma {:induction false} ByteRankMonotone(m: byte, i: nat, n: nat)
    requires i <= n
    ensures ByteRank(m, i) <= ByteRank(m, n)
  {
    if i < n { ByteRankMonotone(m, i, n - 1); }
  }

  predicate DataBit(next: seq<byte>, k: nat)
  {
    k < 8 * |next| && BitAt(next, k)
  }

  /** A TDI byte after i turns of the inner loop, the next data being read from bit c on. */
  function ScatterTo(tdi: byte, m: byte, next: seq<byte>, c: nat, i: nat): byte
    requires i <= 8
    decreases i, 0, tdi
  {
    if i == 0 then tdi else ScatterOne(tdi, m, next, c, i - 1)
  }

  /** The same after turn number i. */
  function ScatterOne(tdi: byte, m: byte, next: seq<byte>, c: nat, i: nat): byte
    requires i < 8
    decreases i, 1, tdi
  {
    var prev := ScatterTo(tdi, m, next, c, i);
    SetBitAt(prev, i, 0);
    if !Bit(m, i) then prev
    else if DataBit(next, c + ByteRank(m, i)) then Or(prev, Pow2(i)) else AndNot(prev, Pow2(i))
  }

  /** Masked bits come from the next data in order, the others are left alone. */
  lemma {:induction false} ScatterToBit(tdi: byte, m: byte, next: seq<byte>, c: nat, i: nat, b: nat)
    requires i <= 8
    ensures Bit(ScatterTo(tdi, m, next, c, i), b)
         == if b < i && Bit(m, b) then DataBit(next, c + ByteRank(m, b)) else Bit(tdi, b)
    decreases i
  {
    if i > 0 {
      ScatterToBit(tdi, m, next, c, i - 1, b);
      assert ScatterTo(tdi, m, next, c, i) == ScatterOne(tdi, m, next, c, i - 1);
      SetBitAt(ScatterTo(tdi, m, next, c, i - 1), i - 1, b);
      ClearBitAt(ScatterTo(tdi, m, next, c, i - 1), i - 1, b);
    }
  }

  lemma {:induction false} ScatterToDone(tdi: byte, m: byte, next: seq<byte>, c: nat, i: nat, n: nat)
    requires i <= n <= 8 && Shr(m, i) == 0
    ensures ScatterTo(tdi, m, next, c, n) == ScatterTo(tdi, m, next, c, i)
    decreases n
  {
    if i < n {
      ScatterToDone(tdi, m, next, c, i, n - 1);
      assert ScatterTo(tdi, m, next, c, n) == ScatterOne(tdi, m, next, c, n - 1);
      BitShr(m, i, n - 1 - i);
      BitZero(n - 1 - i);
    }
  }

  /** One turn of the inner loop. */
  method ScatterBit(tdiByte: byte, maskBit: bool, tdiMask: byte, next: seq<byte>, at: int, current: byte, mask: byte,
                    ghost c: nat, ghost r: nat)
      returns (out: byte, at': int, current': byte, mask': byte, ghost r': nat)
    requires Cursor(next, c, r, at, current, mask) && (maskBit ==> c < 8 * |next|)
    requires Or(tdiByte, tdiMask) < 256
    ensures Cursor(next, if maskBit then c + 1 else c, r', at', current', mask')
    ensures out == if !maskBit then tdiByte else if DataBit(next, c) then Or(tdiByte, tdiMask)
            else AndNot(tdiByte, tdiMask)
  {
    out, at', current', mask', r' := tdiByte, at, current, mask, r;
    if maskBit {
      var bit;
      bit, at', current', mask', r' := NextBit(next, at, current, mask, c, r);
      out := if bit then Or(tdiByte, tdiMask) else AndNot(tdiByte, tdiMask);
    }
  }

  /** The inner loop: every bit of the TDI byte that the mask byte selects is overwritten by the
      next data bit, and exactly as many data bits are consumed as the mask byte has ones. */
  method ScatterByte(tdi: byte, m: byte, next: seq<byte>, at: int, current: byte, mask: byte, ghost c: nat,
      ghost r: nat)
      returns (out: byte, at': int, current': byte, mask': byte, ghost r': nat)
    requires c + ByteRank(m, 8) <= 8 * |next| && Cursor(next, c, r, at, current, mask)
    ensures Cursor(next, c + ByteRank(m, 8), r', at', current', mask')
    ensures out == ScatterTo(tdi, m, next, c, 8)
  {
    out, at', current', mask', r' := tdi, at, current, mask, r;
    var left, tdiMask: byte := m, 1;
    ghost var i: nat := 0;
    while left != 0
      invariant i <= 8 && left == Shr(m, i) && tdiMask == TdiMask(i)
      invariant Cursor(next, c + ByteRank(m, i), r', at', current', mask')
      invariant out == ScatterTo(tdi, m, next, c, i)
      decreases left
    {
      InnerTurn(m, i);
      ScatterTurn(tdi, m, next, c, i);
      out, at', current', mask', r' :=
        ScatterBit(out, left % 2 == 1, tdiMask, next, at', current', mask', c + ByteRank(m, i), r');
      tdiMask := 2 * tdiMask % 256;
      left := left / 2;
      i := i + 1;
    }
    ByteRankDone(m, i, 8);
    ScatterToDone(tdi, m, next, c, i, 8);
  }

  /** The mask that walks along the TDI byte, and off it. */
  function TdiMask(i: nat): (m: byte)
    ensures i < 8 ==> m == Pow2(i)
  {
    if i < 8 then Pow2Byte(i); Pow2(i) else 0
  }

  /** What one turn of the inner loop does to its counters. */
  lemma {:induction false} InnerTurn(m: byte, i: nat)
    requires i <= 8 && Shr(m, i) != 0
    ensures i < 8 && Shr(m, i) / 2 == Shr(m, i + 1)
    ensures 2 * TdiMask(i) % 256 == TdiMask(i + 1)
    ensures (Shr(m, i) % 2 == 1) == Bit(m, i)
    ensures ByteRank(m, i + 1) == ByteRank(m, i) + (if Bit(m, i) then 1 else 0) <= ByteRank(m, 8)
  {
    Pow2Eight();
    ShrHalf(m, i);
    Pow2Byte(i);
    BitShr(m, i, 0);
    ByteRankMonotone(m, i + 1, 8);
  }

  lemma {:induction false} ScatterTurn(tdi: byte, m: byte, next: seq<byte>, c: nat, i: nat)
    requires i < 8
    ensures var prev := ScatterTo(tdi, m, next, c, i);
            && Or(prev, TdiMask(i)) < 256
            && ScatterTo(tdi, m, next, c, i + 1)
               == if !Bit(m, i) then prev
                  else if DataBit(next, c + ByteRank(m, i)) then Or(prev, TdiMask(i)) else AndNot(prev, TdiMask(i))
  {
    SetBitAt(ScatterTo(tdi, m, next, c, i), i, 0);
    assert ScatterTo(tdi, m, next, c, i + 1) == ScatterOne(tdi, m, next, c, i);
  }

  // ----- the whole value -----

  /** The n least significant bytes of the merged value. */
  function Merged(sum: seq<byte>, mask: seq<byte>, next: seq<byte>, n: nat): (s: seq<byte>)
    requires |sum| == |mask| && n <= |sum|
    ensures |s| == n
  {
    if n == 0 then []
    else [ScatterTo(sum[|sum| - n], mask[|sum| - n], next, Rank(mask, 8 * (n - 1)), 8)] + Merged(sum, mask, next, n - 1)
  }

  lemma {:induction false} MergedAt(sum: seq<byte>, mask: seq<byte>, next: seq<byte>, n: nat, at: nat)
    requires |sum| == |mask| && n <= |sum| && |sum| - n <= at < |sum|
    ensures Merged(sum, mask, next, n)[at - (|sum| - n)]
         == ScatterTo(sum[at], mask[at], next, Rank(mask, 8 * (|sum| - 1 - at)), 8)
  {
    if at > |sum| - n { MergedAt(sum, mask, next, n - 1, at); }
  }

  /** Bit k of the merged value: the data bit whose number is the rank of k if k is masked, else
      bit k of the sum. */
  lemma {:induction false} MergedBit(sum: seq<byte>, mask: seq<byte>, next: seq<byte>, k: nat)
    requires |sum| == |mask| && k < 8 * |sum|
    ensures BitAt(Merged(sum, mask, next, |sum|), k)
         == if BitAt(mask, k) then DataBit(next, Rank(mask, k)) else BitAt(sum, k)
  {
    ghost var q, b := k / 8, k % 8;
    MergedBitAt(sum, mask, next, q, b);
    assert k == 8 * q + b;
  }

  lemma {:induction false} MergedBitAt(sum: seq<byte>, mask: seq<byte>, next: seq<byte>, q: nat, b: nat)
    requires |sum| == |mask| && q < |sum| && b < 8
    ensures Bit(Merged(sum, mask, next, |sum|)[|sum| - 1 - q], b)
         == if Bit(mask[|sum| - 1 - q], b) then DataBit(next, Rank(mask, 8 * q + b)) else Bit(sum[|sum| - 1 - q], b)
  {
    var at := |sum| - 1 - q;
    MergedAt(sum, mask, next, |sum|, at);
    ScatterToBit(sum[at], mask[at], next, Rank(mask, 8 * q), 8, b);
    RankInByte(mask, at, b);
  }

  /** A masked bit's rank is below the number of mask bits, so its data bit exists. */
  lemma {:induction false} RankInRange(mask: seq<byte>, k: nat)
    requires k < 8 * |mask| && BitAt(mask, k)
    ensures Rank(mask, k) < Popcount(mask)
  {
    RankMonotone(mask, k, 8 * |mask|);
  }

  lemma {:induction false} ZeroMaskByte(tdi: byte, next: seq<byte>, c: nat)
    ensures ByteRank(0, 8) == 0 && ScatterTo(tdi, 0, next, c, 8) == tdi
  {
    ByteRankDone(0, 0, 8);
    ScatterToDone(tdi, 0, next, c, 0, 8);
  }

  /** One turn of the outer loop, for the byte at one position. */
  method MaskByte(tdi: byte, m: byte, next: seq<byte>, at: int, current: byte, mask: byte, ghost c: nat, ghost r: nat)
      returns (out: byte, at': int, current': byte, mask': byte, ghost r': nat)
    requires c + ByteRank(m, 8) <= 8 * |next| && Cursor(next, c, r, at, current, mask)
    ensures Cursor(next, c + ByteRank(m, 8), r', at', current', mask')
    ensures out == ScatterTo(tdi, m, next, c, 8)
  {
    if m != 0 {
      out, at', current', mask', r' := ScatterByte(tdi, m, next, at, current, mask, c, r);
    } else {
      ZeroMaskByte(tdi, next, c);
      out, at', current', mask', r' := tdi, at, current, mask, r;
    }
  }

  /** The outer loop under way: the bytes from i on are merged, and the next data has been read as far
      as their mask bits go. */
  ghost predicate Merging(val: seq<byte>, sum: seq<byte>, rest: seq<byte>, mask: seq<byte>, next: seq<byte>, i: nat,
                          at: int, current: byte, bitMask: byte, r: nat)
  {
    && i <= |mask| == |sum| && |val| == |sum| + |rest|
    && val[..i] == sum[..i] && val[i..] == Merged(sum, mask, next, |mask| - i) + rest
    && Cursor(next, Rank(mask, 8 * (|mask| - i)), r, at, current, bitMask)
  }

  /** One turn of it. */
  method MergeAt(val: seq<byte>, next: seq<byte>, mask: seq<byte>, i: nat, at: int, current: byte, bitMask: byte,
                 ghost sum: seq<byte>, ghost rest: seq<byte>, ghost r: nat)
      returns (out: byte, at': int, current': byte, bitMask': byte, ghost r': nat)
    requires i < |mask| && Popcount(mask) <= 8 * |next| &&
             Merging(val, sum, rest, mask, next, i + 1, at, current, bitMask, r)
    ensures Merging(val[i := out], sum, rest, mask, next, i, at', current', bitMask', r')
  {
    ghost var n := |mask|;
    ghost var tail := Merged(sum, mask, next, n - 1 - i);
    RankInByte(mask, i, 8);
    RankMonotone(mask, 8 * (n - i), 8 * n);
    Splice(val, sum, tail + rest, i, 0);
    out, at', current', bitMask', r' :=
      MaskByte(val[i], mask[i], next, at, current, bitMask, Rank(mask, 8 * (n - 1 - i)), r);
    Splice(val, sum, tail + rest, i, out);
    Regroup(out, tail, rest);
  }

  /** The outer loop of xsvfDoSDRMasking. */
  method Merge(tdi: LenVal, next: seq<byte>, mask: seq<byte>)
    requires tdi.Valid() && tdi.len == |mask| && Popcount(mask) <= 8 * |next|
    modifies tdi
    ensures tdi.len == old(tdi.len)
    ensures tdi.val == Merged(old(tdi.Bytes()), mask, next, |mask|) + old(tdi.val[tdi.len..])
  {
    ghost var sum, rest := tdi.Bytes(), tdi.val[tdi.len..];
    var i, at, current, bitMask := |mask|, |next|, 0, 0;
    ghost var r: nat := 0;
    while i > 0
      invariant 0 <= i <= |mask| && tdi.len == |mask| &&
                Merging(tdi.val, sum, rest, mask, next, i, at, current, bitMask, r)
    {
      i := i - 1;
      var out;
      out, at, current, bitMask, r := MergeAt(tdi.val, next, mask, i, at, current, bitMask, sum, rest, r);
      tdi.val := tdi.val[i := out];
    }
    assert tdi.val[0..] == tdi.val;
  }

  lemma {:induction false} Splice<T>(val: seq<T>, head: seq<T>, tail: seq<T>, i: nat, out: T)
    requires i < |head| && i < |val| && val[..i + 1] == head[..i + 1] && val[i + 1..] == tail
    ensures val[i := out][..i] == head[..i] && val[i := out][i..] == [out] + tail && val[i] == head[i]
  {
  }

  lemma {:induction false} Regroup<T>(x: T, a: seq<T>, b: seq<T>)
    ensures [x] + (a + b) == ([x] + a) + b
  {
  }

  /** xsvfDoSDRMasking.  For a TDI value, an address mask and a data mask of one length, the
      unmasked bits become those of the sum modulo 256 to the length, and the masked bits, from
      the least significant up, the successive bits of the next data. */
  method DoSDRMasking(tdi: LenVal, next: LenVal, addressMask: LenVal, dataMask: LenVal)
    requires tdi.Valid() && next.Valid() && addressMask.Valid() && dataMask.Valid()
    requires tdi != addressMask && tdi != dataMask && tdi != next
    requires dataMask.len == tdi.len && Popcount(dataMask.Bytes()) <= 8 * next.len
    modifies tdi
    ensures tdi.Valid() && tdi.len == old(tdi.len) && tdi.val[tdi.len..] == old(tdi.val[tdi.len..])
    ensures tdi.Bytes() ==
            Merged(Added(old(tdi.Bytes()), addressMask.val[..tdi.len], 0), dataMask.Bytes(), next.Bytes(), tdi.len)
  {
    ghost var rest := tdi.val[tdi.len..];
    AddVal(tdi, addressMask);
    ghost var sum := Added(old(tdi.Bytes()), addressMask.val[..tdi.len], 0);
    assert tdi.val[..tdi.len] == sum && tdi.val[tdi.len..] == rest;
    Merge(tdi, next.val[..next.len], dataMask.val[..dataMask.len]);
  }

  /** What that comes to: each unmasked bit is the sum's, each masked bit is the data bit of its
      rank, and every rank is in range. */
  lemma {:induction false} MaskingMeans(sum: seq<byte>, dataMask: seq<byte>, next: seq<byte>, k: nat)
    requires |sum| == |dataMask| && k < 8 * |sum| && Popcount(dataMask) <= 8 * |next|
    ensures BitAt(dataMask, k) ==> Rank(dataMask, k) < Popcount(dataMask)
    ensures BitAt(Merged(sum, dataMask, next, |sum|), k)
         == if BitAt(dataMask, k) then BitAt(next, Rank(dataMask, k)) else BitAt(sum, k)
  {
    MergedBit(sum, dataMask, next, k);
    if BitAt(dataMask, k) { RankInRange(dataMask, k); }
  }

  // ----- counting the mask bits -----

  /** Mask bits in the first n bytes. */
  function BytesRank(mask: seq<byte>, n: nat): nat
    requires n <= |mask|
  {
    if n == 0 then 0 else BytesRank(mask, n - 1) + ByteRank(mask[n - 1], 8)
  }

  lemma {:induction false} BytesRankSplit(mask: seq<byte>, n: nat)
    requires n <= |mask|
    ensures BytesRank(mask, n) + Rank(mask, 8 * (|mask| - n)) == Popcount(mask)
  {
    if n > 0 {
      BytesRankSplit(mask, n - 1);
      RankInByte(mask, n - 1, 8);
    }
  }

  lemma {:induction false} ByteRankRange(x: byte, n: nat)
    ensures ByteRank(x, n) <= n
  {
  }

  lemma {:induction false} BytesRankRange(mask: seq<byte>, n: nat)
    requires n <= |mask|
    ensures BytesRank(mask, n) <= 8 * n
  {
    if n > 0 {
      BytesRankRange(mask, n - 1);
      ByteRankRange(mask[n - 1], 8);
    }
  }

  lemma {:induction false} PopcountRange(mask: seq<byte>)
    ensures Popcount(mask) <= 8 * |mask|
  {
  }

  /** The mask bit count of xsvfDoXSDRINC.  Its index is an unsigned char, so the loop ends only
      for masks of at most 255 bytes. */
  method CountMaskBits(mask: seq<byte>) returns (count: nat)
    requires |mask| <= 255
    ensures count == Popcount(mask)
  {
    count := 0;
    var i: byte := 0;
    while i < |mask|
      invariant i <= |mask| && count == BytesRank(mask, i)
    {
      var m, b := mask[i], 0;
      while m != 0
        invariant 0 <= b && m == Shr(mask[i], b) && count == BytesRank(mask, i) + ByteRank(mask[i], b)
        decreases m
      {
        BitShr(mask[i], b, 0);
        ShrHalf(mask[i], b);
        count := count + m % 2;
        m := m / 2;
        b := b + 1;
      }
      if b <= 8 { ByteRankDone(mask[i], b, 8); } else { Pow2Eight(); ShrHalf(mask[i], 8); ByteRankDone(mask[i], 8, b); }
      i := (i + 1) % 256;
    }
    BytesRankSplit(mask, |mask|);
  }
}
