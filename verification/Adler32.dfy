/** include/adler32.h: the Adler-32 checksum with reduction put off for up to 5552 bytes, against the
    definition in section 2.2 of RFC 1950. */
module Adler32 {
  import opened Bits

  /** An unsigned long of 32 bits.  Every assignment to one is checked to fit. */
  newtype u32 = x: int | 0 <= x < 0x1_0000_0000

  const BASE := 65521
  const NMAX := 5552

  datatype Sums = Sums(s1: nat, s2: nat)

  /** The sum of all bytes and the sum of all its values, without reduction. */
  function Raw(s: Sums, data: seq<byte>): Sums
    decreases |data|
  {
    if data == [] then s
    else
      var r := Raw(s, data[..|data| - 1]);
      Sums(r.s1 + data[|data| - 1], r.s2 + r.s1 + data[|data| - 1])
  }

  function Reduced(s: Sums): Sums
  {
    Sums(s.s1 % BASE, s.s2 % BASE)
  }

  /** The definition: both sums are kept modulo 65521 at every byte. */
  function Defined(s: Sums, data: seq<byte>): Sums
    decreases |data|
  {
    if data == [] then s
    else
      var r := Defined(s, data[..|data| - 1]);
      Reduced(Sums(r.s1 + data[|data| - 1], r.s2 + r.s1 + data[|data| - 1]))
  }

  /** Reduction can be put off to the end. */
  lemma {:induction false} RawReduces(s: Sums, data: seq<byte>)
    ensures Reduced(Raw(s, data)) == Reduced(Defined(s, data))
    decreases |data|
  {
    if data != [] {
      RawReduces(s, data[..|data| - 1]);
      var a, b, d := Raw(s, data[..|data| - 1]), Defined(s, data[..|data| - 1]), data[|data| - 1];
      SumReduces(a, b, d);
      Twice(Sums(b.s1 + d, b.s2 + b.s1 + d));
    }
  }

  lemma {:induction false} SumReduces(a: Sums, b: Sums, d: nat)
    requires Reduced(a) == Reduced(b)
    ensures Reduced(Sums(a.s1 + d, a.s2 + a.s1 + d)) == Reduced(Sums(b.s1 + d, b.s2 + b.s1 + d))
  {
    Congruent(a.s1, b.s1, d);
    Congruent(a.s1, b.s1, a.s2 + d);
    Congruent(a.s2, b.s2, b.s1 + d);
  }

  lemma {:induction false} Congruent(a: nat, b: nat, c: nat)
    requires a % BASE == b % BASE
    ensures (a + c) % BASE == (b + c) % BASE
  {
  }

  lemma {:induction false} Twice(s: Sums)
    ensures Reduced(Reduced(s)) == Reduced(s)
  {
  }

  lemma {:induction false} DefinedConcat(s: Sums, a: seq<byte>, b: seq<byte>)
    ensures Defined(s, a + b) == Defined(Defined(s, a), b)
    decreases |b|
  {
    if b == [] {
      assert a + b == a;
    } else {
      var n := |b| - 1;
      DefinedConcat(s, a, b[..n]);
      assert (a + b)[..|a + b| - 1] == a + b[..n];
    }
  }

  lemma {:induction false} DefinedIsReduced(s: Sums, data: seq<byte>)
    requires data != []
    ensures Reduced(Defined(s, data)) == Defined(s, data)
  {
  }

  // ----- no overflow -----

  /** Bounds on the sums after n bytes. */
  lemma {:induction false} RawBounds(s: Sums, data: seq<byte>)
    ensures Raw(s, data).s1 <= s.s1 + 255 * |data|
    ensures 2 * Raw(s, data).s2 <= 2 * s.s2 + 2 * (|data| * s.s1) + 255 * (|data| * (|data| + 1))
    decreases |data|
  {
    if data != [] {
      var n := |data| - 1;
      RawBounds(s, data[..n]);
      assert (n + 1) * s.s1 == n * s.s1 + s.s1;
      assert (n + 1) * (n + 2) == n * (n + 1) + 2 * (n + 1);
    }
  }

  lemma {:induction false} MulMonotone(a: nat, b: nat, c: nat, d: nat)
    requires a <= c && b <= d
    ensures a * b <= c * d
  {
  }

  /** The choice of 5552: from any 16-bit starting sums, no intermediate sum exceeds 32 bits. */
  lemma {:induction false} NoOverflow(s: Sums, data: seq<byte>)
    requires s.s1 <= 0xFFFF && s.s2 <= 0xFFFF && |data| <= NMAX
    ensures Raw(s, data).s1 < 0x1_0000_0000 && Raw(s, data).s2 < 0x1_0000_0000
  {
    RawBounds(s, data);
    MulMonotone(|data|, s.s1, NMAX, 0xFFFF);
    MulMonotone(|data|, |data| + 1, NMAX, NMAX + 1);
  }

  // ----- the code -----

  /** The sums so far are those of a chunk's first bytes. */
  ghost predicate Summed(s: Sums, data: seq<byte>, from: nat, at: nat, s1: u32, s2: u32)
  {
    from <= at <= |data| && at - from <= NMAX && Raw(s, data[from..at]) == Sums(s1 as nat, s2 as nat)
  }

  /** DO1 */
  method Do1(buf: seq<byte>, i: nat, s1: u32, s2: u32, ghost s: Sums, ghost from: nat) returns (t1: u32, t2: u32)
    requires s.s1 <= 0xFFFF && s.s2 <= 0xFFFF && Summed(s, buf, from, i, s1, s2) && i < |buf| && i - from < NMAX
    ensures Summed(s, buf, from, i + 1, t1, t2)
  {
    ghost var chunk := buf[from..i + 1];
    assert chunk[..i - from] == buf[from..i];
    NoOverflow(s, chunk);
    t1 := s1 + buf[i] as u32;
    t2 := s2 + t1;
  }

  method Do2(buf: seq<byte>, i: nat, s1: u32, s2: u32, ghost s: Sums, ghost from: nat) returns (t1: u32, t2: u32)
    requires s.s1 <= 0xFFFF && s.s2 <= 0xFFFF && Summed(s, buf, from, i, s1, s2) && i + 2 <= |buf| &&
             i + 2 - from <= NMAX
    ensures Summed(s, buf, from, i + 2, t1, t2)
  {
    t1, t2 := Do1(buf, i, s1, s2, s, from);
    t1, t2 := Do1(buf, i + 1, t1, t2, s, from);
  }

  method Do4(buf: seq<byte>, i: nat, s1: u32, s2: u32, ghost s: Sums, ghost from: nat) returns (t1: u32, t2: u32)
    requires s.s1 <= 0xFFFF && s.s2 <= 0xFFFF && Summed(s, buf, from, i, s1, s2) && i + 4 <= |buf| &&
             i + 4 - from <= NMAX
    ensures Summed(s, buf, from, i + 4, t1, t2)
  {
    t1, t2 := Do2(buf, i, s1, s2, s, from);
    t1, t2 := Do2(buf, i + 2, t1, t2, s, from);
  }

  method Do8(buf: seq<byte>, i: nat, s1: u32, s2: u32, ghost s: Sums, ghost from: nat) returns (t1: u32, t2: u32)
    requires s.s1 <= 0xFFFF && s.s2 <= 0xFFFF && Summed(s, buf, from, i, s1, s2) && i + 8 <= |buf| &&
             i + 8 - from <= NMAX
    ensures Summed(s, buf, from, i + 8, t1, t2)
  {
    t1, t2 := Do4(buf, i, s1, s2, s, from);
    t1, t2 := Do4(buf, i + 4, t1, t2, s, from);
  }

  method Do16(buf: seq<byte>, i: nat, s1: u32, s2: u32, ghost s: Sums, ghost from: nat) returns (t1: u32, t2: u32)
    requires s.s1 <= 0xFFFF && s.s2 <= 0xFFFF && Summed(s, buf, from, i, s1, s2) && i + 16 <= |buf| &&
             i + 16 - from <= NMAX
    ensures Summed(s, buf, from, i + 16, t1, t2)
  {
    t1, t2 := Do8(buf, i, s1, s2, s, from);
    t1, t2 := Do8(buf, i + 8, t1, t2, s, from);
  }

  /** The sums of one chunk of k bytes. */
  method Chunk(buf: seq<byte>, from: nat, n: nat, s1: u32, s2: u32) returns (t1: u32, t2: u32)
    requires s1 <= 0xFFFF && s2 <= 0xFFFF && 0 < n <= NMAX && from + n <= |buf|
    ensures Summed(Sums(s1 as nat, s2 as nat), buf, from, from + n, t1, t2)
  {
    ghost var s := Sums(s1 as nat, s2 as nat);
    var at, k := from, n;
    t1, t2 := s1, s2;
    while k >= 16
      invariant 0 <= k && at + k == from + n && Summed(s, buf, from, at, t1, t2)
    {
      t1, t2 := Do16(buf, at, t1, t2, s, from);
      at, k := at + 16, k - 16;
    }
    while k != 0
      invariant 0 <= k && at + k == from + n && Summed(s, buf, from, at, t1, t2)
    {
      t1, t2 := Do1(buf, at, t1, t2, s, from);
      at, k := at + 1, k - 1;
    }
  }

  /** The two halves of a checksum. */
  function Split(adler: u32): Sums
  {
    Sums(adler as nat % 0x1_0000, adler as nat / 0x1_0000)
  }

  function Join(s: Sums): u32
    requires s.s1 < 0x1_0000 && s.s2 < 0x1_0000
  {
    (s.s2 * 0x1_0000 + s.s1) as u32
  }

  lemma {:induction false} SplitJoin(s: Sums)
    requires s.s1 < 0x1_0000 && s.s2 < 0x1_0000
    ensures Split(Join(s)) == s
  {
  }

  /** The checksum as defined, from any starting value. */
  function Checksum(adler: u32, data: seq<byte>): u32
  {
    DefinedSmall(Split(adler), data);
    Join(Defined(Split(adler), data))
  }

  lemma {:induction false} DefinedSmall(s: Sums, data: seq<byte>)
    requires s.s1 < 0x1_0000 && s.s2 < 0x1_0000
    ensures Defined(s, data).s1 < 0x1_0000 && Defined(s, data).s2 < 0x1_0000
  {
  }

  /** zlib_adler32 computes the checksum as defined, for every buffer and every starting value; without
      a buffer it returns the initial value. */
  method Adler(adler: u32, buf: array?<byte>, len: nat) returns (r: u32)
    requires buf != null ==> len <= buf.Length
    ensures r == if buf == null then 1 else Checksum(adler, buf[..len])
  {
    if buf == null { return 1; }
    ghost var start := Split(adler);
    var s1, s2 := adler % 0x1_0000, adler / 0x1_0000 % 0x1_0000;
    var left, at, data := len, 0, buf[..len];
    assert data[..0] == [];
    while left > 0
      invariant 0 <= left && at + left == len && data == buf[..len] && s1 <= 0xFFFF && s2 <= 0xFFFF
      invariant Defined(start, data[..at]) == Sums(s1 as nat, s2 as nat)
    {
      var k := if left < NMAX then left else NMAX;
      left := left - k;
      var t1, t2 := Chunk(data, at, k, s1, s2);
      ChunkAdds(start, data, at, at + k, Sums(s1 as nat, s2 as nat), Sums(t1 as nat, t2 as nat));
      s1, s2 := t1 % BASE as u32, t2 % BASE as u32;
      at := at + k;
    }
    assert data[..at] == data;
    DefinedSmall(start, data);
    r := s2 * 0x1_0000 + s1;
  }

  lemma {:induction false} ChunkAdds(start: Sums, data: seq<byte>, from: nat, to: nat, s: Sums, t: Sums)
    requires from < to <= |data| && Defined(start, data[..from]) == s && Raw(s, data[from..to]) == t
    ensures Defined(start, data[..to]) == Reduced(t)
  {
    assert data[..to] == data[..from] + data[from..to];
    DefinedConcat(start, data[..from], data[from..to]);
    RawReduces(s, data[from..to]);
    DefinedIsReduced(s, data[from..to]);
  }

  /** A checksum updated over two buffers is that of both together. */
  lemma {:induction false} Incremental(adler: u32, a: seq<byte>, b: seq<byte>)
    ensures Checksum(Checksum(adler, a), b) == Checksum(adler, a + b)
  {
    DefinedSmall(Split(adler), a);
    SplitJoin(Defined(Split(adler), a));
    DefinedConcat(Split(adler), a, b);
  }

  // ----- the sums in closed form -----

  /** The sum of the first k bytes. */
  function Total(data: seq<byte>, k: nat): nat
    requires k <= |data|
  {
    if k == 0 then 0 else Total(data, k - 1) + data[k - 1]
  }

  /** The same, each byte weighted by its distance from the end. */
  function Weighted(data: seq<byte>, k: nat): nat
    requires k <= |data|
  {
    if k == 0 then 0 else Weighted(data, k - 1) + (|data| - (k - 1)) * data[k - 1]
  }

  lemma {:induction false} TotalLonger(data: seq<byte>, b: byte, k: nat)
    requires k <= |data|
    ensures Total(data + [b], k) == Total(data, k)
  {
    if k > 0 { TotalLonger(data, b, k - 1); }
  }

  lemma {:induction false} WeightedLonger(data: seq<byte>, b: byte, k: nat)
    requires k <= |data|
    ensures Weighted(data + [b], k) == Weighted(data, k) + Total(data, k)
  {
    if k > 0 {
      WeightedLonger(data, b, k - 1);
      OneMoreTime(|data| - (k - 1), data[k - 1]);
    }
  }

  lemma {:induction false} OneMoreTime(a: nat, b: nat)
    ensures (a + 1) * b == a * b + b
  {
  }

  lemma {:induction false} RawIs(s: Sums, data: seq<byte>)
    ensures Raw(s, data) == Sums(s.s1 + Total(data, |data|), s.s2 + |data| * s.s1 + Weighted(data, |data|))
    decreases |data|
  {
    if data != [] {
      var n := |data| - 1;
      var init, b := data[..n], data[n];
      RawIs(s, init);
      assert data == init + [b];
      TotalLonger(init, b, n);
      WeightedLonger(init, b, n);
      OneMoreTime(n, s.s1);
    }
  }

  /** The low half is the sum of all bytes and the starting low half, the high half the starting high half and the
      sum of all sums on the way, both modulo 65521. */
  lemma {:induction false} ClosedForm(adler: u32, data: seq<byte>)
    requires data != []
    ensures var r, n, a, b := Checksum(adler, data) as nat, |data|, adler as nat % 0x1_0000, adler as nat / 0x1_0000;
            && r % 0x1_0000 == (a + Total(data, n)) % 65521
            && r / 0x1_0000 == (b + n * a + Weighted(data, n)) % 65521
  {
    var s := Split(adler);
    RawIs(s, data);
    RawReduces(s, data);
    DefinedIsReduced(s, data);
    DefinedSmall(s, data);
    SplitJoin(Defined(s, data));
  }
}
