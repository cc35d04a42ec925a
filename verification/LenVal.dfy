/** jtag/lenval.c: numbers of any length held as big-endian byte arrays, val[len-1] being the
    least significant byte. */
module LenVals {
  import opened Bits

  const MAX_LEN := 7000

  // ----- values and bits of a big-endian byte string -----

  function BytesValue(s: seq<byte>): nat
  {
    if s == [] then 0 else 256 * BytesValue(s[..|s| - 1]) + s[|s| - 1]
  }

  function Pow256(n: nat): (p: nat)
    ensures p >= 1
  {
    if n == 0 then 1 else 256 * Pow256(n - 1)
  }

  /** Bit k of a byte string, counted from the least significant end. */
  predicate BitAt(s: seq<byte>, k: nat)
    requires k < 8 * |s|
  {
    Bit(s[|s| - 1 - k / 8], k % 8)
  }

  /** The n least significant bits of a byte string. */
  function LowBits(s: seq<byte>, n: nat): (bits: seq<bool>)
    requires n <= 8 * |s|
    ensures |bits| == n
  {
    if n == 0 then [] else LowBits(s, n - 1) + [BitAt(s, n - 1)]
  }

  lemma {:induction false} LowBitsAt(s: seq<byte>, n: nat, k: nat)
    requires k < n <= 8 * |s|
    ensures LowBits(s, n)[k] == BitAt(s, k)
  {
    if k < n - 1 { LowBitsAt(s, n - 1, k); }
  }

  /** The number formed by n bits of a bit string from a position on, the first one least
      significant; a bit string ends in zeros. */
  function Gather(bits: seq<bool>, off: nat, n: nat): (v: nat)
    ensures v < Pow2(n)
    decreases n, bits
  {
    if n == 0 then 0
    else Gather(bits, off, n - 1) + if off + n - 1 < |bits| && bits[off + n - 1] then Pow2(n - 1) else 0
  }

  function Octet(bits: seq<bool>, off: nat): byte
  {
    Pow2Eight();
    Gather(bits, off, 8)
  }

  /** The byte string of a given length holding a bit string, padded with zeros. */
  function Packed(bits: seq<bool>, len: nat): (s: seq<byte>)
    ensures |s| == len
  {
    PackedTo(bits, len, len)
  }

  /** Its n most significant bytes. */
  function PackedTo(bits: seq<bool>, len: nat, n: nat): (s: seq<byte>)
    requires n <= len
    ensures |s| == n
  {
    if n == 0 then [] else PackedTo(bits, len, n - 1) + [Octet(bits, 8 * (len - n))]
  }

  lemma {:induction false} PackedAt(bits: seq<bool>, len: nat, n: nat, j: nat)
    requires j < n <= len
    ensures PackedTo(bits, len, n)[j] == Octet(bits, 8 * (len - 1 - j))
  {
    if j < n - 1 { PackedAt(bits, len, n - 1, j); }
  }

  lemma {:induction false} GatherBit(bits: seq<bool>, off: nat, n: nat, i: nat)
    ensures Bit(Gather(bits, off, n), i) == (i < n && off + i < |bits| && bits[off + i])
    decreases n
  {
    if n == 0 {
      BitZero(i);
    } else {
      GatherBit(bits, off, n - 1, i);
      if off + n - 1 < |bits| && bits[off + n - 1] {
        OrFresh(Gather(bits, off, n - 1), n - 1);
        BitOr(Gather(bits, off, n - 1), Pow2(n - 1), i);
        BitPow2(n - 1, i);
      }
    }
  }

  /** Past the end of a bit string there is nothing more to gather. */
  lemma {:induction false} GatherEnds(bits: seq<bool>, off: nat, i: nat, n: nat)
    requires i <= n && off + i >= |bits|
    ensures Gather(bits, off, n) == Gather(bits, off, i)
    decreases n
  {
    if i < n { GatherEnds(bits, off, i, n - 1); }
  }

  /** Packing keeps every bit and pads with zeros. */
  lemma {:induction false} PackedBits(bits: seq<bool>, len: nat, k: nat)
    requires k < 8 * len
    ensures BitAt(Packed(bits, len), k) == (k < |bits| && bits[k])
  {
    var at := len - 1 - k / 8;
    PackedAt(bits, len, len, at);
    GatherBit(bits, 8 * (k / 8), 8, k % 8);
  }

  // ----- the lenVal structure -----

  /** A length and a buffer of fixed size, rewritten in place.  The identity number tells the
      buffers of one player apart. */
  class LenVal {
    const id: nat
    var len: nat
    var val: seq<byte>

    ghost predicate Valid()
      reads this
    {
      |val| == MAX_LEN + 1 && len <= MAX_LEN
    }

    function Bytes(): (s: seq<byte>)
      requires Valid()
      reads this
      ensures |s| == len
    {
      val[..len]
    }

    constructor (id: nat)
      ensures Valid() && this.id == id
    {
      this.id := id;
      len := 0;
      val := seq(MAX_LEN + 1, _ => 0);
    }

    /** value: the number held, for as many bytes as a long has room for. */
    method Value() returns (v: nat)
      requires Valid()
      ensures v == BytesValue(Bytes())
    {
      v := 0;
      for i := 0 to len
        invariant v == BytesValue(val[..i])
      {
        assert val[..i + 1][..i] == val[..i];
        v := 256 * v + val[i];
      }
    }
  }

  // ----- comparison under a mask -----

  /** Two byte strings agree under a mask on their first n bytes. */
  predicate Agree(expected: seq<byte>, captured: seq<byte>, mask: seq<byte>, n: nat)
    requires n <= |expected| && n <= |captured| && n <= |mask|
  {
    n == 0 || (Agree(expected, captured, mask, n - 1)
               && And(expected[n - 1], mask[n - 1]) == And(captured[n - 1], mask[n - 1]))
  }

  /** That is agreement on every bit the mask selects. */
  lemma {:induction false} AgreeMeans(expected: seq<byte>, captured: seq<byte>, mask: seq<byte>, n: nat)
    requires n <= |expected| && n <= |captured| && n <= |mask|
    ensures Agree(expected, captured, mask, n) <==>
              forall i: nat, b: nat | i < n && b < 8 && Bit(mask[i], b) :: Bit(expected[i], b) == Bit(captured[i], b)
  {
    if n > 0 {
      AgreeMeans(expected, captured, mask, n - 1);
      var x, y, m := expected[n - 1], captured[n - 1], mask[n - 1];
      if And(x, m) == And(y, m) {
        forall b: nat | b < 8 && Bit(m, b) ensures Bit(x, b) == Bit(y, b) { MaskedBytesAgree(x, y, m, b); }
      } else {
        var b := MaskedBytesDiffer(x, y, m);
      }
    }
  }

  lemma {:induction false} MaskedBytesAgree(x: byte, y: byte, m: byte, b: nat)
    requires And(x, m) == And(y, m) && Bit(m, b)
    ensures Bit(x, b) == Bit(y, b)
  {
    BitAnd(x, m, b);
    BitAnd(y, m, b);
  }

  lemma {:induction false} MaskedBytesDiffer(x: byte, y: byte, m: byte) returns (b: nat)
    requires And(x, m) != And(y, m)
    ensures b < 8 && Bit(m, b) && Bit(x, b) != Bit(y, b)
  {
    b := BytesDiffer(And(x, m), And(y, m));
    BitAnd(x, m, b);
    BitAnd(y, m, b);
  }

  lemma {:induction false} BytesDiffer(x: byte, y: byte) returns (b: nat)
    requires x != y
    ensures b < 8 && Bit(x, b) != Bit(y, b)
  {
    Pow2Eight();
    if forall b: nat | b < 8 :: Bit(x, b) == Bit(y, b) { SameBits(x, y, 8); }
    b :| b < 8 && Bit(x, b) != Bit(y, b);
  }

  /** A missing mask compares every bit. */
  ghost function MaskBytes(mask: LenVal?): (s: seq<byte>)
    requires mask != null ==> mask.Valid()
    reads mask
    ensures |s| == MAX_LEN + 1
  {
    if mask == null then seq(MAX_LEN + 1, _ => 255) else mask.val
  }

  /** Masking a byte with 255 changes nothing. */
  lemma {:induction false} AllOnes(x: byte)
    ensures And(x, 255) == x
  {
    AndOnes(x, 8);
    Pow2Eight();
  }

  lemma {:induction false} AndOnes(x: nat, w: nat)
    requires x < Pow2(w)
    ensures And(x, Pow2(w) - 1) == x
  {
    if w > 0 {
      AndOnes(x / 2, w - 1);
      assert (Pow2(w) - 1) / 2 == Pow2(w - 1) - 1;
    }
  }

  lemma {:induction false} AgreePrefix(expected: seq<byte>, captured: seq<byte>, mask: seq<byte>, n: nat, i: nat)
    requires i < n <= |expected| && n <= |captured| && n <= |mask|
    requires And(expected[i], mask[i]) != And(captured[i], mask[i])
    ensures !Agree(expected, captured, mask, n)
  {
    if i < n - 1 { AgreePrefix(expected, captured, mask, n - 1, i); }
  }

  /** EqualLenVal: compare the expected length's worth of bytes, under an optional mask, from
      the last byte back and stopping at the first difference. */
  method EqualLenVal(expected: LenVal, captured: LenVal, mask: LenVal?) returns (equal: bool)
    requires expected.Valid() && captured.Valid() && (mask != null ==> mask.Valid())
    ensures equal == Agree(expected.val, captured.val, MaskBytes(mask), expected.len)
  {
    equal := true;
    var index := expected.len;
    ghost var m := MaskBytes(mask);
    while equal && index != 0
      invariant 0 <= index <= expected.len
      invariant equal ==>
                  Agree(expected.val, captured.val, m, expected.len) == Agree(expected.val, captured.val, m, index)
      invariant !equal ==> !Agree(expected.val, captured.val, m, expected.len)
      decreases index, equal
    {
      index := index - 1;
      var v1, v2 := expected.val[index], captured.val[index];
      AllOnes(v1);
      AllOnes(v2);
      if mask != null {
        v1, v2 := And(v1, mask.val[index]), And(v2, mask.val[index]);
      }
      if v1 != v2 {
        AgreePrefix(expected.val, captured.val, m, expected.len, index);
        equal := false;
      }
    }
  }

  // ----- addition -----

  /** Byte-wise addition with carry, from the least significant byte up. */
  function Added(a: seq<byte>, b: seq<byte>, carry: nat): (r: seq<byte>)
    requires |a| == |b| && carry <= 1
    ensures |r| == |a|
  {
    if a == [] then []
    else
      var n := |a| - 1;
      var sum := a[n] + b[n] + carry;
      Added(a[..n], b[..n], if sum > 255 then 1 else 0) + [sum % 256]
  }

  lemma {:induction false} ModSplit(x: nat, d: nat, p: nat)
    requires d < 256 && p >= 1
    ensures (256 * x + d) % (256 * p) == 256 * (x % p) + d
  {
    var q, r := x / p, x % p;
    assert x == p * q + r;
    assert 256 * x + d == (256 * p) * q + (256 * r + d) by {
      assert 256 * (p * q) == (256 * p) * q;
    }
    assert 0 <= 256 * r + d < 256 * p;
    ModUnique(256 * x + d, 256 * p, q, 256 * r + d);
  }

  lemma {:induction false} TimesAtLeast(m: nat, k: nat)
    requires k >= 1
    ensures m * k >= m
  {
  }

  lemma {:induction false} ModUnique(x: nat, m: nat, q: nat, r: nat)
    requires m > 0 && r < m && x == m * q + r
    ensures x % m == r
  {
    var q', r' := x / m, x % m;
    assert x == m * q' + r';
    if q' < q { TimesAtLeast(m, q - q'); } else if q' > q { TimesAtLeast(m, q' - q); }
    assert m * (q - q') == m * q - m * q';
    assert m * (q' - q) == m * q' - m * q;
  }

  /** addVal is addition modulo 256 to the length. */
  lemma {:induction false} AddedValue(a: seq<byte>, b: seq<byte>, carry: nat)
    requires |a| == |b| && carry <= 1
    ensures BytesValue(Added(a, b, carry)) == (BytesValue(a) + BytesValue(b) + carry) % Pow256(|a|)
  {
    if a != [] {
      var n := |a| - 1;
      var a', b', sum: nat := a[..n], b[..n], a[n] + b[n] + carry;
      var c := if sum > 255 then 1 else 0;
      AddedValue(a', b', c);
      ValueSnoc(Added(a', b', c), sum % 256);
      AddedDigit(BytesValue(a'), BytesValue(b'), c, a[n], b[n], carry, Pow256(n));
    }
  }

  lemma {:induction false} AddedDigit(x: nat, y: nat, c: nat, d: byte, e: byte, carry: nat, p: nat)
    requires carry <= 1 && p >= 1 && c == if d + e + carry > 255 then 1 else 0
    ensures ((256 * x + d) + (256 * y + e) + carry) % (256 * p) == 256 * ((x + y + c) % p) + (d + e + carry) % 256
  {
    ModSplit(x + y + c, (d + e + carry) % 256, p);
  }

  lemma {:induction false} ValueSnoc(s: seq<byte>, d: byte)
    ensures BytesValue(s + [d]) == 256 * BytesValue(s) + d
  {
  }

  /** Only the bytes above a position still depend on the carry into it. */
  lemma {:induction false} AddedStep(a: seq<byte>, b: seq<byte>, i: nat, carry: nat)
    requires |a| == |b| && 0 < i <= |a| && carry <= 1
    ensures Added(a[..i], b[..i], carry)
         == Added(a[..i - 1], b[..i - 1], if a[i - 1] + b[i - 1] + carry > 255 then 1 else 0)
            + [(a[i - 1] + b[i - 1] + carry) % 256]
  {
    assert a[..i][..i - 1] == a[..i - 1];
    assert b[..i][..i - 1] == b[..i - 1];
  }

  /** What is left to add: the digits below position i, with the carry into it. */
  ghost predicate Adding(a: seq<byte>, b: seq<byte>, sum: seq<byte>, i: nat, carry: nat)
  {
    i <= |a| == |b| == |sum| && carry <= 1 && sum[..i] == Added(a[..i], b[..i], carry)
  }

  lemma {:induction false} AddDigit(a: seq<byte>, b: seq<byte>, sum: seq<byte>, i: nat, carry: nat)
    requires 0 < i && Adding(a, b, sum, i, carry)
    ensures Adding(a, b, sum, i - 1, if a[i - 1] + b[i - 1] + carry > 255 then 1 else 0)
    ensures sum[i - 1] == (a[i - 1] + b[i - 1] + carry) % 256
  {
    AddedStep(a, b, i, carry);
    assert sum[..i - 1] == sum[..i][..i - 1] && sum[i - 1] == sum[..i][i - 1];
  }

  /** The result has replaced the first operand from position i on. */
  ghost predicate Replaced(was: seq<byte>, now: seq<byte>, sum: seq<byte>, i: nat)
  {
    i <= |sum| <= |was| == |now| && now[..i] == was[..i] && now[i..] == sum[i..] + was[|sum|..]
  }

  lemma {:induction false} ReplaceNext(was: seq<byte>, now: seq<byte>, sum: seq<byte>, i: nat)
    requires 0 < i && Replaced(was, now, sum, i)
    ensures now[i - 1] == was[i - 1] && Replaced(was, now[i - 1 := sum[i - 1]], sum, i - 1)
  {
    assert now[..i][i - 1] == was[..i][i - 1];
    assert now[i - 1 := sum[i - 1]][i - 1..] == [sum[i - 1]] + now[i..];
    assert now[i - 1 := sum[i - 1]][..i - 1] == now[..i][..i - 1];
  }

  /** addVal, with the result stored over the first operand as its only caller does. */
  method AddVal(res: LenVal, other: LenVal)
    requires res.Valid() && other.Valid() && res != other
    modifies res
    ensures res.len == old(res.len)
    ensures res.val == Added(old(res.Bytes()), other.val[..res.len], 0) + old(res.val[res.len..])
  {
    var carry := 0;
    var index := res.len;
    ghost var was, a, b := res.val, res.Bytes(), other.val[..res.len];
    ghost var sum := Added(a, b, 0);
    assert a[..index] == a && b[..index] == b && sum[..index] == sum;
    while index != 0
      invariant index <= res.len == old(res.len) && Adding(a, b, sum, index, carry) &&
                Replaced(was, res.val, sum, index)
      decreases index
    {
      AddDigit(a, b, sum, index, carry);
      ReplaceNext(was, res.val, sum, index);
      index := index - 1;
      var v1: int, v2: int := res.val[index], other.val[index];
      var total := v1 + v2 + carry;
      carry := if total > 255 then 1 else 0;
      res.val := res.val[index := total % 256];
    }
  }
}
