/** The packets of acdx/lib/libamp.c: escaping of special characters, lengths and checksums. */
module Amplifier {
  import opened Bits

  const OBUF_SIZE := 1023
  const IBUF_SIZE := 4096
  const ESC_BUF_SIZE := 4096

  const STX: byte := 0x02
  const ETX: byte := 0x03
  const ESC: byte := 0x1B
  const OPB: byte := 0x7B
  const CLB: byte := 0x7D

  const SPECIAL_CHARS: seq<byte> := [STX, ETX, ESC, OPB, CLB]

  predicate Special(c: byte)
  {
    c == STX || c == ETX || c == ESC || c == OPB || c == CLB
  }

  /** IsSpecial */
  method IsSpecial(c: byte) returns (b: bool)
    ensures b == Special(c)
  {
    for i := 0 to |SPECIAL_CHARS|
      invariant forall j | 0 <= j < i :: SPECIAL_CHARS[j] != c
    {
      if SPECIAL_CHARS[i] == c { return true; }
    }
    assert SPECIAL_CHARS[0] == STX && SPECIAL_CHARS[1] == ETX && SPECIAL_CHARS[2] == ESC && SPECIAL_CHARS[3] == OPB &&
        SPECIAL_CHARS[4] == CLB;
    b := false;
  }

  // ----- the escape code -----

  /** Characters are bytes: sums wrap around. */
  function Shifted(c: byte, d: int): byte
  {
    var x: int := c;
    (x + d) % 256
  }

  /** What one character becomes on the line. */
  function Code(c: byte): seq<byte>
  {
    if Special(c) then [ESC, Shifted(c, 0x40)] else [c]
  }

  function Escape(s: seq<byte>): seq<byte>
  {
    if s == [] then [] else Code(s[0]) + Escape(s[1..])
  }

  /** What is read back from escaped characters and the character that ends them. */
  function Unescape(t: seq<byte>): seq<byte>
    decreases |t|
  {
    if |t| <= 1 then []
    else if t[0] == ESC then [Shifted(t[1], -0x40)] + Unescape(t[2..])
    else [t[0]] + Unescape(t[1..])
  }

  predicate Delimited(f: seq<byte>)
  {
    |f| > 0 && f[0] == STX && f[|f| - 1] == ETX
  }

  function EscapeFrame(f: seq<byte>): seq<byte>
    requires Delimited(f)
  {
    [STX] + Escape(f[1..|f| - 1]) + [ETX]
  }

  function UnescapeFrame(e: seq<byte>): seq<byte>
    requires Delimited(e)
  {
    [STX] + Unescape(e[1..]) + [ETX]
  }

  lemma {:induction false} UnescapeEscape(s: seq<byte>)
    ensures Unescape(Escape(s) + [ETX]) == s
  {
    if s != [] {
      UnescapeEscape(s[1..]);
      Assoc(Code(s[0]), Escape(s[1..]), [ETX]);
      UnescapeCode(s[0], Escape(s[1..]) + [ETX]);
      assert [s[0]] + s[1..] == s;
    }
  }

  lemma {:induction false} UnescapeCode(c: byte, rest: seq<byte>)
    requires rest != []
    ensures Unescape(Code(c) + rest) == [c] + Unescape(rest)
  {
    var t := Code(c) + rest;
    if Special(c) {
      assert t[2..] == rest;
    } else {
      assert t[1..] == rest;
    }
  }

  /** Unescaping after escaping is the identity on every delimited frame. */
  lemma {:induction false} FrameRoundTrip(f: seq<byte>)
    requires Delimited(f)
    ensures Delimited(EscapeFrame(f)) && UnescapeFrame(EscapeFrame(f)) == f
  {
    var s := f[1..|f| - 1];
    UnescapeEscape(s);
    Enclosed(Escape(s));
    FrameParts(f, s);
  }

  lemma {:induction false} Enclosed(t: seq<byte>)
    ensures Delimited([STX] + t + [ETX]) && ([STX] + t + [ETX])[1..] == t + [ETX]
  {
  }

  lemma {:induction false} FrameParts(f: seq<byte>, s: seq<byte>)
    requires Delimited(f) && s == f[1..|f| - 1]
    ensures f == [STX] + s + [ETX]
  {
  }

  /** No delimiter and no brace appears between the delimiters. */
  lemma {:induction false} EscapeClean(s: seq<byte>, k: nat)
    requires k < |Escape(s)|
    ensures Escape(s)[k] !in {STX, ETX, OPB, CLB}
  {
    var code := Code(s[0]);
    if k >= |code| { EscapeClean(s[1..], k - |code|); }
  }

  /** What goes over the line for one character. */
  function OnLine(c: byte): (t: seq<byte>)
  {
    match c
    case 0x02 => [0x1B, 0x42]
    case 0x03 => [0x1B, 0x43]
    case 0x1B => [0x1B, 0x5B]
    case 0x7B => [0x1B, 0xBB]
    case 0x7D => [0x1B, 0xBD]
    case _ => [c]
  }

  /** The places of the characters that take two bytes. */
  function Doubled(s: seq<byte>, k: nat): set<nat>
    requires k <= |s|
  {
    set j: nat | j < k && |OnLine(s[j])| == 2
  }

  lemma {:induction false} CodesAre(c: byte)
    ensures Code(c) == OnLine(c)
  {
  }

  /** One byte more for every such character before it is where a character's code stands. */
  lemma {:induction false} EscapeAt(s: seq<byte>, k: nat)
    requires k < |s|
    ensures var p := k + |Doubled(s, k)|;
            p + |OnLine(s[k])| <= |Escape(s)| && Escape(s)[p..p + |OnLine(s[k])|] == OnLine(s[k])
  {
    EscapedTo(s, k);
    NextCode(s, k + 1, s[k]);
    CodesAre(s[k]);
    EscapeExtends(s, k + 1);
    var a, all, p := Escape(s[..k + 1]), Escape(s), k + |Doubled(s, k)|;
    assert a[p..] == OnLine(s[k]);
    assert all[p..|a|] == all[..|a|][p..];
  }

  lemma {:induction false} EscapedTo(s: seq<byte>, k: nat)
    requires k <= |s|
    ensures |Escape(s[..k])| == k + |Doubled(s, k)|
  {
    if k > 0 {
      EscapedTo(s, k - 1);
      NextCode(s, k, s[k - 1]);
      CodesAre(s[k - 1]);
      DoubledNext(s, k - 1);
    } else {
      assert Doubled(s, k) == {};
    }
  }

  lemma {:induction false} DoubledNext(s: seq<byte>, k: nat)
    requires k < |s|
    ensures |Doubled(s, k + 1)| == |Doubled(s, k)| + |OnLine(s[k])| - 1
  {
    var before := Doubled(s, k);
    assert Doubled(s, k + 1) == if |OnLine(s[k])| == 2 then before + {k} else before;
  }

  lemma {:induction false} EscapeExtends(s: seq<byte>, n: nat)
    requires n <= |s|
    ensures Escape(s[..n]) <= Escape(s)
    decreases |s| - n
  {
    if n == |s| {
      assert s[..n] == s;
    } else {
      EscapeExtends(s, n + 1);
      NextCode(s, n + 1, s[n]);
    }
  }

  lemma {:induction false} EscapeLength(s: seq<byte>)
    ensures |s| <= |Escape(s)| <= 2 * |s|
  {
    if s != [] { EscapeLength(s[1..]); }
  }

  lemma {:induction false} EscapeSnoc(s: seq<byte>, c: byte)
    ensures Escape(s + [c]) == Escape(s) + Code(c)
  {
    if s == [] {
      assert [c][1..] == [] && Code(c) + [] == Code(c) && [] + Code(c) == Code(c) && [] + [c] == [c];
    } else {
      EscapeSnoc(s[1..], c);
      assert (s + [c])[1..] == s[1..] + [c];
      assert Code(s[0]) + (Escape(s[1..]) + Code(c)) == (Code(s[0]) + Escape(s[1..])) + Code(c);
    }
  }

  lemma {:induction false} EscapePrefix(s: seq<byte>, n: nat)
    requires n <= |s|
    ensures |Escape(s[..n])| + (|s| - n) <= |Escape(s)|
    decreases |s| - n
  {
    if n == |s| {
      assert s[..n] == s;
    } else {
      EscapePrefix(s, n + 1);
      assert s[..n + 1] == s[..n] + [s[n]];
      EscapeSnoc(s[..n], s[n]);
    }
  }

  lemma {:induction false} UnescapeLength(t: seq<byte>)
    ensures |Unescape(t)| <= if t == [] then 0 else |t| - 1
    decreases |t|
  {
    if |t| > 1 { UnescapeLength(if t[0] == ESC then t[2..] else t[1..]); }
  }

  /** The code of the next character of s. */
  lemma {:induction false} NextCode(s: seq<byte>, i: nat, c: byte)
    requires 0 < i <= |s| && c == s[i - 1]
    ensures Escape(s[..i]) == Escape(s[..i - 1]) + Code(c)
  {
    assert s[..i] == s[..i - 1] + [c];
    EscapeSnoc(s[..i - 1], c);
  }

  /** One turn of the unescaping loop. */
  lemma {:induction false} UnescapeStep(e: seq<byte>, i: nat)
    requires i + 1 < |e|
    ensures Unescape(e[i..]) == if e[i] == ESC then [Shifted(e[i + 1], -0x40)] + Unescape(e[i + 2..])
            else [e[i]] + Unescape(e[i + 1..])
  {
  }

  lemma {:induction false} Assoc(a: seq<byte>, b: seq<byte>, c: seq<byte>)
    ensures (a + b) + c == a + (b + c)
  {
  }

  // ----- lengths -----

  /** Reverse search for the end of a frame followed by zeros, from position i down; the whole size if
      there is none. */
  function EndBefore(s: seq<byte>, i: int): nat
    requires i < |s|
    decreases i
  {
    if i <= 0 then |s| else if s[i] == ETX then i + 1 else if s[i] != 0 then |s| else EndBefore(s, i - 1)
  }

  function SizeOf(s: seq<byte>): nat
  {
    if s != [] && s[0] == STX then EndBefore(s, |s| - 1) else |s|
  }

  /** The exact length of a frame is found, however many zeros follow. */
  lemma {:induction false} SizeFound(f: seq<byte>, s: seq<byte>)
    requires Delimited(f) && f <= s && forall i | |f| <= i < |s| :: s[i] == 0
    ensures SizeOf(s) == |f|
  {
    EndFound(f, s, |s| - 1);
  }

  lemma {:induction false} EndFound(f: seq<byte>, s: seq<byte>, i: nat)
    requires Delimited(f) && f <= s && |f| - 1 <= i < |s| && forall j | |f| <= j < |s| :: s[j] == 0
    ensures EndBefore(s, i) == |f|
    decreases i
  {
    if i >= |f| { EndFound(f, s, i - 1); } else { assert s[i] == f[|f| - 1]; }
  }

  /** A buffer without a frame followed by zeros is taken whole. */
  lemma {:induction false} SizeElse(s: seq<byte>)
    requires s == [] || s[0] != STX || forall i: nat | 0 < i < |s| :: !EndsAt(s, i)
    ensures SizeOf(s) == |s|
  {
    if s != [] && s[0] == STX { NoEnd(s, |s| - 1); }
  }

  predicate EndsAt(s: seq<byte>, i: nat)
    requires i < |s|
  {
    s[i] == ETX && forall j | i < j < |s| :: s[j] == 0
  }

  lemma {:induction false} NoEnd(s: seq<byte>, i: nat)
    requires i < |s| && forall j | i < j < |s| :: s[j] == 0
    requires forall j: nat | 0 < j < |s| :: !EndsAt(s, j)
    ensures EndBefore(s, i) == |s|
  {
    if i > 0 && s[i] == 0 { NoEnd(s, i - 1); }
    else if i > 0 { assert !EndsAt(s, i); }
  }

  /** GetBufSize */
  method GetBufSize(buf: array<byte>, sz: nat) returns (n: nat)
    requires sz <= buf.Length && buf.Length > 0
    ensures n == SizeOf(buf[..sz])
  {
    ghost var s := buf[..sz];
    n := sz;
    if buf[0] == STX {
      var i := sz - 1;
      while i > 0
        invariant -1 <= i < sz && EndBefore(s, sz - 1) == EndBefore(s, i)
      {
        if buf[i] == ETX { return i + 1; }
        if buf[i] != 0 { break; }
        i := i - 1;
      }
    }
  }

  // ----- packets -----

  /** A packet; the module number is present in replies only. */
  datatype Packet = Packet(head: byte, device: (byte, byte), cmd: byte, modul: (byte, byte), payload: seq<byte>,
      checksum: byte, tail: byte)
  {
    /** What the checksum is taken over. */
    function Covered(reply: bool): seq<byte>
    {
      [head, device.0, device.1, cmd] + (if reply then [modul.0, modul.1] else []) + payload
    }

    function Frame(): seq<byte>
    {
      [head, device.0, device.1, cmd] + payload + [checksum, tail]
    }
  }

  /** The places of the fields in a frame, and what the checksum of a command covers: all before it. */
  lemma {:induction false} FrameLayout(p: Packet)
    ensures var f, n := p.Frame(), |p.payload|;
            && |f| == n + 6 && f[0] == p.head && f[1] == p.device.0 && f[2] == p.device.1 && f[3] == p.cmd
            && (forall i: nat | i < n :: f[4 + i] == p.payload[i]) && f[n + 4] == p.checksum && f[n + 5] == p.tail
            && p.Covered(false) == f[..n + 4]
            && p.Covered(true) == f[..4] + [p.modul.0, p.modul.1] + f[4..n + 4]
  {
  }

  lemma {:induction false} Interior(p: Packet)
    ensures p.Frame()[1..|p.Frame()| - 1] == [p.device.0, p.device.1, p.cmd] + p.payload + [p.checksum]
  {
  }

  function XorByte(x: byte, y: byte): byte
  {
    Pow2Eight();
    XorRange(x, y, 8);
    Xor(x, y)
  }

  function XorAll(s: seq<byte>): byte
  {
    if s == [] then 0 else XorByte(XorAll(s[..|s| - 1]), s[|s| - 1])
  }

  /** Values that would look like a delimiter or the end of a string are moved out of the way. */
  function Adjusted(c: byte): byte
  {
    if c == 0 || c == STX || c == ETX then Shifted(c, 0x0A) else c
  }

  /** The bytes that have a bit set. */
  function Having(s: seq<byte>, b: nat): set<nat>
  {
    set i: nat | i < |s| && Bit(s[i], b)
  }

  /** A bit of the sum is set exactly if it is set in an odd number of bytes. */
  lemma {:induction false} XorParity(s: seq<byte>, b: nat)
    ensures Bit(XorAll(s), b) <==> |Having(s, b)| % 2 == 1
  {
    if s == [] {
      BitZero(b);
      assert Having(s, b) == {};
    } else {
      var init, n := s[..|s| - 1], |s| - 1;
      XorParity(init, b);
      BitXor(XorAll(init), s[n], b);
      HavingNext(init, s[n], b);
      assert s == init + [s[n]];
    }
  }

  lemma {:induction false} HavingNext(s: seq<byte>, c: byte, b: nat)
    ensures |Having(s + [c], b)| == |Having(s, b)| + if Bit(c, b) then 1 else 0
  {
    var before := Having(s, b);
    assert Having(s + [c], b) == if Bit(c, b) then before + {|s|} else before;
  }

  function CheckSum(s: seq<byte>): (c: byte)
    ensures c != 0 && c != STX && c != ETX
  {
    Adjusted(XorAll(s))
  }

  lemma {:induction false} XorCancels(x: byte, y: byte, z: byte)
    ensures XorByte(x, y) == XorByte(x, z) <==> y == z
    ensures XorByte(y, x) == XorByte(z, x) <==> y == z
  {
    Pow2Eight();
    forall i: nat | i < 8
      ensures XorByte(x, y) == XorByte(x, z) || XorByte(y, x) == XorByte(z, x) ==> Bit(y, i) == Bit(z, i)
    {
      BitXor(x, y, i);
      BitXor(x, z, i);
      BitXor(y, x, i);
      BitXor(z, x, i);
    }
    if XorByte(x, y) == XorByte(x, z) || XorByte(y, x) == XorByte(z, x) { SameBits(y, z, 8); }
  }

  /** Changing one byte changes the sum the checksum is made from. */
  lemma {:induction false} XorDetects(s: seq<byte>, i: nat, x: byte)
    requires i < |s|
    ensures XorAll(s[i := x]) == XorAll(s) <==> x == s[i]
  {
    var n := |s| - 1;
    var a := XorAll(s[..n]);
    if i == n {
      assert s[i := x][..n] == s[..n];
      XorCancels(a, s[i], x);
    } else {
      XorDetects(s[..n], i, x);
      assert s[i := x][..n] == s[..n][i := x];
      XorCancels(s[n], XorAll(s[..n][i := x]), a);
    }
  }

  /** The sums that adjusting makes equal. */
  predicate Twins(a: byte, b: byte)
  {
    (a == 0 && b == 0x0A) || (a == STX && b == 0x0C) || (a == ETX && b == 0x0D)
  }

  /** Adjusting loses some of that: a changed byte goes unnoticed exactly if it takes the sum from a value
      that is adjusted to the value it is adjusted to, or back. */
  lemma {:induction false} ChecksumMisses(s: seq<byte>, i: nat, x: byte)
    requires i < |s| && x != s[i]
    ensures CheckSum(s[i := x]) == CheckSum(s)
       <==> Twins(XorAll(s), XorAll(s[i := x])) || Twins(XorAll(s[i := x]), XorAll(s))
  {
    XorDetects(s, i, x);
    AdjustedTwins(XorAll(s), XorAll(s[i := x]));
  }

  lemma {:induction false} AdjustedTwins(a: byte, b: byte)
    requires a != b
    ensures Adjusted(a) == Adjusted(b) <==> Twins(a, b) || Twins(b, a)
  {
  }

  lemma {:induction false} XorSnoc(s: seq<byte>, c: byte)
    ensures XorAll(s + [c]) == XorByte(XorAll(s), c)
  {
  }

  /** Exclusive-or of the first k bytes, one at a time. */
  lemma {:induction false} XorStep(s: seq<byte>, k: nat)
    requires k < |s|
    ensures XorAll(s[..k + 1]) == XorByte(XorAll(s[..k]), s[k])
  {
    XorSnoc(s[..k], s[k]);
    assert s[..k + 1] == s[..k] + [s[k]];
  }

  /** A command to device "00". */
  function Command(payload: byte): Packet
  {
    Packet(STX, (0x30, 0x30), 0x41, (0, 0), [payload], 0, ETX)
  }

  lemma {:induction false} HeaderSums()
    ensures XorByte(0, STX) == STX && XorByte(STX, 0x30) == 0x32 && XorByte(0x32, 0x30) == STX &&
            XorByte(STX, 0x41) == 0x43
  {
  }

  lemma {:induction false} HeaderSum(s: seq<byte>)
    requires |s| == 5 && s[0] == STX && s[1] == s[2] == 0x30 && s[3] == 0x41
    ensures XorAll(s) == XorByte(0x43, s[4])
  {
    assert s[..0] == [] && s[..5] == s;
    XorStep(s, 0);
    XorStep(s, 1);
    XorStep(s, 2);
    XorStep(s, 3);
    XorStep(s, 4);
    HeaderSums();
  }

  lemma {:induction false} PayloadSums()
    ensures XorByte(0x43, 0x43) == 0 && XorByte(0x43, 0x49) == 0x0A
  {
    XorSelf(0x43);
    assert Xor(0x04, 0x04) == 0 by { XorSelf(0x04); }
    assert Xor(0x08, 0x09) == 0x01;
    assert Xor(0x10, 0x12) == 0x02;
    assert Xor(0x21, 0x24) == 0x05;
  }

  lemma {:induction false} XorSelf(x: nat)
    ensures Xor(x, x) == 0
  {
    if x > 0 { XorSelf(x / 2); }
  }

  /** For one, a command byte 0x43 that becomes 0x49 goes unnoticed. */
  lemma {:induction false} MissedByte()
    ensures Command(0x43).Covered(false)[4 := 0x49] == Command(0x49).Covered(false)
    ensures CheckSum(Command(0x43).Covered(false)) == CheckSum(Command(0x49).Covered(false))
  {
    HeaderSum(Command(0x43).Covered(false));
    HeaderSum(Command(0x49).Covered(false));
    PayloadSums();
  }

  /** CalcCheckSum: the fixed fields. */
  method CheckHeader(reply: bool, p: Packet) returns (cks: byte, ghost done: seq<byte>)
    ensures done == [p.head, p.device.0, p.device.1, p.cmd] + (if reply then [p.modul.0, p.modul.1] else []) &&
            cks == XorAll(done)
  {
    cks, done := 0, [];
    cks, done := Mix(cks, p.head, done);
    cks, done := Mix(cks, p.device.0, done);
    cks, done := Mix(cks, p.device.1, done);
    cks, done := Mix(cks, p.cmd, done);
    if reply {
      cks, done := Mix(cks, p.modul.0, done);
      cks, done := Mix(cks, p.modul.1, done);
    }
  }

  /** CalcCheckSum */
  method CalcCheckSum(reply: bool, p: Packet) returns (cks: byte)
    ensures cks == CheckSum(p.Covered(reply)) && cks != 0 && cks != STX && cks != ETX
  {
    ghost var head, done;
    cks, head := CheckHeader(reply, p);
    done := head;
    for i := 0 to |p.payload|
      invariant done == head + p.payload[..i] && cks == XorAll(done)
    {
      cks, done := Mix(cks, p.payload[i], done);
    }
    assert done == p.Covered(reply);
    if cks == 0 || cks == STX || cks == ETX { cks := Shifted(cks, 0x0A); }
  }

  method Mix(cks: byte, c: byte, ghost done: seq<byte>) returns (r: byte, ghost done': seq<byte>)
    requires cks == XorAll(done)
    ensures done' == done + [c] && r == XorAll(done')
  {
    XorSnoc(done, c);
    r, done' := XorByte(cks, c), done + [c];
  }

  // ----- the buffers -----

  class Link {
    const oBuf: array<byte>
    const iBuf: array<byte>
    const escBuf: array<byte>
    var oBufSize: nat
    var iBufSize: nat

    ghost predicate Valid()
      reads this
    {
      && oBuf.Length == OBUF_SIZE + 1 && iBuf.Length == IBUF_SIZE + 1 && escBuf.Length == ESC_BUF_SIZE
      && oBuf != iBuf && oBuf != escBuf && iBuf != escBuf && oBufSize <= oBuf.Length && iBufSize <= IBUF_SIZE
    }

    constructor ()
      ensures Valid() && fresh(oBuf) && fresh(iBuf) && fresh(escBuf)
    {
      oBuf, iBuf, escBuf := new byte[OBUF_SIZE + 1](_ => 0), new byte[IBUF_SIZE + 1](_ => 0),
          new byte[ESC_BUF_SIZE](_ => 0);
      oBufSize, iBufSize := 0, 0;
    }

    /** One character of the frame, at position j of the escaped buffer. */
    method PutCode(c: byte, j: nat) returns (j': nat)
      requires j + |Code(c)| <= escBuf.Length
      modifies escBuf
      ensures j' == j + |Code(c)| && escBuf[..j'] == old(escBuf[..j]) + Code(c)
    {
      var special := IsSpecial(c);
      if special {
        escBuf[j], escBuf[j + 1] := ESC, Shifted(c, 0x40);
        j' := j + 2;
      } else {
        escBuf[j] := c;
        j' := j + 1;
      }
    }

    /** The first loop of EscapeOBuf. */
    method FillEscBuf() returns (j: nat)
      requires Valid() && oBufSize >= 2
      modifies escBuf
      ensures j == 1 + |Escape(oBuf[1..oBufSize - 1])| < ESC_BUF_SIZE
      ensures escBuf[..j] == [STX] + Escape(oBuf[1..oBufSize - 1])
    {
      ghost var s := oBuf[1..oBufSize - 1];
      EscapeLength(s);
      escBuf[0] := STX;
      j := 1;
      for i := 1 to oBufSize - 1
        invariant 1 <= j <= 1 + |Escape(s)| && escBuf[..j] == [STX] + Escape(s[..i - 1])
      {
        var c := oBuf[i];
        NextCode(s, i, c);
        EscapePrefix(s, i);
        Assoc([STX], Escape(s[..i - 1]), Code(c));
        j := PutCode(c, j);
      }
      assert s[..oBufSize - 2] == s;
    }

    /** EscapeOBuf: the frame in the output buffer is replaced by its escaped form, which must fit; a
        buffer that is not delimited is left alone. */
    method EscapeOBuf()
      requires Valid()
      requires Delimited(oBuf[..oBufSize]) ==> |EscapeFrame(oBuf[..oBufSize])| <= oBuf.Length
      modifies this`oBufSize, oBuf, escBuf
      ensures Valid()
      ensures oBuf[..oBufSize] == if old(Delimited(oBuf[..oBufSize])) then old(EscapeFrame(oBuf[..oBufSize]))
              else old(oBuf[..oBufSize])
    {
      ghost var f := oBuf[..oBufSize];
      if oBufSize > 0 && oBuf[0] == STX && oBuf[oBufSize - 1] == ETX {
        assert f[1..|f| - 1] == oBuf[1..oBufSize - 1];
        var j := FillEscBuf();
        escBuf[j] := ETX;
        j := j + 1;
        assert escBuf[..j] == EscapeFrame(f);
        for i := 0 to j
          invariant oBuf[..i] == escBuf[..i] && escBuf[..j] == EscapeFrame(f)
        {
          oBuf[i] := escBuf[i];
        }
        oBufSize := j;
      }
    }

    /** The second loop of UnEscapeIBuf, over the copy of the frame. */
    method FillIBuf(n: nat) returns (j: nat)
      requires Valid() && 2 <= n <= IBUF_SIZE
      modifies iBuf
      ensures j == 1 + |Unescape(escBuf[1..n])| < n
      ensures iBuf[..j] == [STX] + Unescape(escBuf[1..n])
    {
      ghost var e := escBuf[..n];
      assert e[1..] == escBuf[1..n];
      UnescapeLength(e[1..]);
      iBuf[0] := STX;
      j := 1;
      var i := 1;
      while i < n - 1
        invariant 1 <= i <= n && 1 <= j <= i
        invariant iBuf[..j] + Unescape(e[i..]) == [STX] + Unescape(e[1..])
      {
        UnescapeStep(e, i);
        var c := escBuf[i];
        if c == ESC { i := i + 1; }
        c := if c == ESC then Shifted(escBuf[i], -0x40) else c;
        i := i + 1;
        Assoc(iBuf[..j], [c], Unescape(e[i..]));
        j := Put(c, j);
      }
    }

    method Put(c: byte, j: nat) returns (j': nat)
      requires j < iBuf.Length
      modifies iBuf
      ensures j' == j + 1 && iBuf[..j'] == old(iBuf[..j]) + [c]
    {
      iBuf[j] := c;
      j' := j + 1;
    }

    /** UnEscapeIBuf */
    method UnEscapeIBuf()
      requires Valid()
      modifies this`iBufSize, iBuf, escBuf
      ensures Valid()
      ensures iBuf[..iBufSize] == if old(Delimited(iBuf[..iBufSize])) then old(UnescapeFrame(iBuf[..iBufSize]))
              else old(iBuf[..iBufSize])
    {
      ghost var f := iBuf[..iBufSize];
      if iBufSize > 0 && iBuf[0] == STX && iBuf[iBufSize - 1] == ETX {
        var n := iBufSize;
        for i := 0 to n
          invariant iBufSize == n && escBuf[..i] == iBuf[..i] && iBuf[..n] == f
        {
          escBuf[i] := iBuf[i];
        }
        ghost var e := escBuf[..n];
        assert e == f;
        forall i | 0 <= i < IBUF_SIZE { iBuf[i] := 0; }
        var j := FillIBuf(n);
        assert escBuf[1..n] == e[1..];
        iBuf[j] := ETX;
        j := j + 1;
        assert iBuf[..j] == UnescapeFrame(f);
        iBufSize := j;
      }
    }

    /** Serialize: the packet, then zeros. */
    method Serialize(p: Packet)
      requires Valid() && |p.Frame()| <= OBUF_SIZE
      modifies oBuf
      ensures oBuf[..|p.Frame()|] == p.Frame() && forall k | |p.Frame()| <= k < OBUF_SIZE :: oBuf[k] == 0
    {
      forall k | 0 <= k < OBUF_SIZE { oBuf[k] := 0; }
      oBuf[0], oBuf[1], oBuf[2], oBuf[3] := p.head, p.device.0, p.device.1, p.cmd;
      assert oBuf[..4] == [p.head, p.device.0, p.device.1, p.cmd];
      var i := PutPayload(p.payload);
      oBuf[i], oBuf[i + 1] := p.checksum, p.tail;
    }

    /** The payload loop of Serialize. */
    method PutPayload(payload: seq<byte>) returns (i: nat)
      requires Valid() && 4 + |payload| <= OBUF_SIZE
      modifies oBuf
      ensures i == 4 + |payload| && oBuf[..i] == old(oBuf[..4]) + payload
      ensures forall k | i <= k < oBuf.Length :: oBuf[k] == old(oBuf[k])
    {
      i := 4;
      for j := 0 to |payload|
        invariant i == 4 + j && oBuf[..i] == old(oBuf[..4]) + payload[..j]
        invariant forall k | i <= k < oBuf.Length :: oBuf[k] == old(oBuf[k])
      {
        oBuf[i] := payload[j];
        i := i + 1;
      }
    }

    /** The sending half of SendRecvCommand: what goes out is the escaped frame of the packet. */
    method Send(cmd: byte, device: (byte, byte), payload: seq<byte>) returns (p: Packet)
      requires Valid() && |payload| + 6 <= OBUF_SIZE &&
               |Escape([device.0, device.1, cmd] + payload)| + 4 <= OBUF_SIZE + 1
      modifies this, oBuf, escBuf
      ensures Valid() && p.cmd == cmd && p.device == device && p.payload == payload
      ensures p.checksum == CheckSum(p.Covered(false)) && Delimited(p.Frame())
      ensures oBuf[..oBufSize] == EscapeFrame(p.Frame())
    {
      p := Packet(STX, device, cmd, (0, 0), payload, 0, ETX);
      var cks := CalcCheckSum(false, p);
      p := p.(checksum := cks);
      ghost var f := p.Frame();
      Serialize(p);
      oBufSize := GetBufSize(oBuf, OBUF_SIZE);
      SizeFound(f, oBuf[..OBUF_SIZE]);
      Interior(p);
      EscapeSnoc([device.0, device.1, cmd] + payload, cks);
      EscapeOBuf();
    }

    /** The receiving half, for a frame that arrived whole. */
    method Receive(wire: seq<byte>, ghost f: seq<byte>)
      requires Valid() && |wire| <= IBUF_SIZE && Delimited(f) && wire == EscapeFrame(f)
      modifies this, iBuf, escBuf
      ensures Valid() && iBuf[..iBufSize] == f
    {
      iBufSize := |wire|;
      forall i | 0 <= i < |wire| { iBuf[i] := wire[i]; }
      assert iBuf[..|wire|] == wire;
      FrameRoundTrip(f);
      SizeFound(wire, wire);
      iBufSize := GetBufSize(iBuf, iBufSize);
      UnEscapeIBuf();
    }
  }
}
