/** The XSVF byte stream that jtag/micro.c plays: how many bytes each command takes, which depends
    on earlier commands, and which streams are well formed. */
module XsvfFormat {
  import opened Bits
  import opened LenVals
  import opened Masking

  const XCOMPLETE := 0
  const XTDOMASK := 1
  const XSIR := 2
  const XSDR := 3
  const XRUNTEST := 4
  const XREPEAT := 7
  const XSDRSIZE := 8
  const XSDRTDO := 9
  const XSETSDRMASKS := 10
  const XSDRINC := 11
  const XSDRB := 12
  const XSDRC := 13
  const XSDRE := 14
  const XSDRTDOB := 15
  const XSDRTDOC := 16
  const XSDRTDOE := 17
  const XSTATE := 18
  const XENDIR := 19
  const XENDDR := 20
  const XSIR2 := 21
  const XCOMMENT := 22
  const XWAIT := 23
  const XLASTCMD := 24

  /** A byte of the input; reading past the end of the file yields 255. */
  function At(data: seq<byte>, p: nat): byte
  {
    if p < |data| then data[p] else 255
  }

  /** n bytes of the input. */
  function Taken(data: seq<byte>, p: nat, n: nat): (s: seq<byte>)
    ensures |s| == n
    decreases n, data
  {
    if n == 0 then [] else Taken(data, p, n - 1) + [At(data, p + n - 1)]
  }

  /** They are the file's, followed by as many 255s as are missing. */
  lemma {:induction false} TakenIs(data: seq<byte>, p: nat, n: nat, i: nat)
    requires i < n
    ensures Taken(data, p, n)[i] == if p + i < |data| then data[p + i] else 255
  {
    if i < n - 1 { TakenIs(data, p, n - 1, i); }
  }

  /** xsvfGetAsNumBytes, before the conversion to a short. */
  function NumBytes(bits: nat): nat
  {
    (bits + 7) / 8
  }

  /** The conversion of a long to a 16-bit short. */
  function ToShort(x: nat): int
  {
    (x + 0x8000) % 0x1_0000 - 0x8000
  }

  /** A count passes through the short as itself exactly if it is below 0x8000; a longer one may come
      out small or negative, 0x8000 for one. */
  lemma {:induction false} ShortAbove(n: nat, limit: nat)
    requires limit < 0x8000
    ensures ToShort(n) == n <==> n < 0x8000
    ensures ToShort(n) > limit <==> limit < n % 0x1_0000 < 0x8000
    ensures (n > limit ==> ToShort(n) > limit) <==> n < 0x8000 || limit < n % 0x1_0000 < 0x8000
    ensures ToShort(0x8000) == -0x8000
  {
  }

  /** What earlier commands fix for later ones: the number of bytes of a data register value, and
      the data mask once it is set. */
  datatype Frame = Frame(size: nat, mask: seq<byte>, masked: bool)

  datatype Parse = Malformed | Stops | Continues(pos: nat, frame: Frame)

  /** The position after a comment that starts at p: past its terminating zero. */
  function CommentEnd(data: seq<byte>, p: nat): nat
    decreases |data| - p
  {
    if p >= |data| then 0 else if data[p] == 0 then p + 1 else CommentEnd(data, p + 1)
  }

  /** The position after m pieces of XSDRINC data. */
  function PiecesEnd(p: nat, step: nat, m: nat): nat
  {
    if m == 0 then p else PiecesEnd(p, step, m - 1) + step
  }

  /** The TDI values of an XSDRINC command: the first one, then one for each piece of data, which
      starts at pos. */
  datatype Increment = Increment(first: seq<byte>, address: seq<byte>, mask: seq<byte>, data: seq<byte>, pos: nat)
  {
    ghost predicate Valid()
    {
      |first| == |address| == |mask|
    }

    function Piece(k: nat): seq<byte>
    {
      Taken(data, PiecesEnd(pos, NumBytes(Popcount(mask)), k), NumBytes(Popcount(mask)))
    }

    /** Each value is the one before plus the address mask, with the masked bits replaced by the
        next piece of data. */
    function Value(k: nat): (v: seq<byte>)
      requires Valid()
      ensures |v| == |first|
      decreases k, 0
    {
      if k == 0 then first else ValueAfter(k - 1)
    }

    function ValueAfter(k: nat): (v: seq<byte>)
      requires Valid()
      ensures |v| == |first|
      decreases k, 1
    {
      Merged(Added(Value(k), address, 0), mask, Piece(k), |mask|)
    }
  }

  function ParseSize(data: seq<byte>, p: nat, f: Frame): Parse
  {
    var bytes := NumBytes(BytesValue(Taken(data, p, 4)));
    if bytes >= 0x8000 then Malformed else if bytes > MAX_LEN then Stops else Continues(p + 4, f.(size := bytes))
  }

  function ParseSir2(data: seq<byte>, p: nat, f: Frame): Parse
  {
    var bytes := NumBytes(BytesValue(Taken(data, p, 2)));
    if bytes > MAX_LEN then Stops else Continues(p + 2 + bytes, f)
  }

  function ParseInc(data: seq<byte>, p: nat, f: Frame): Parse
  {
    if !f.masked || |f.mask| != f.size || f.size > 255 then Malformed
    else Continues(PiecesEnd(p + f.size + 1, NumBytes(Popcount(f.mask)), At(data, p + f.size)), f)
  }

  function ParseComment(data: seq<byte>, p: nat, f: Frame): Parse
  {
    if CommentEnd(data, p) == 0 then Malformed else Continues(CommentEnd(data, p), f)
  }

  /** The parameters of one command, which start at p. */
  function Params(data: seq<byte>, c: byte, p: nat, f: Frame): Parse
  {
    match c
    case 1 | 3 | 12 | 13 | 14 => Continues(p + f.size, f)
    case 2 => Continues(p + 1 + NumBytes(At(data, p)), f)
    case 4 => Continues(p + 4, f)
    case 7 => Continues(p + 1, f)
    case 8 => ParseSize(data, p, f)
    case 9 | 15 | 16 | 17 => Continues(p + 2 * f.size, f)
    case 10 => Continues(p + 2 * f.size, f.(mask := Taken(data, p + f.size, f.size), masked := true))
    case 11 => ParseInc(data, p, f)
    case 18 => if At(data, p) < 16 then Continues(p + 1, f) else Malformed
    case 19 | 20 => if At(data, p) <= 1 then Continues(p + 1, f) else Stops
    case 21 => ParseSir2(data, p, f)
    case 22 => ParseComment(data, p, f)
    case 23 => if At(data, p) < 16 && At(data, p + 1) < 16 then Continues(p + 6, f) else Malformed
    case _ => Stops
  }

  lemma {:induction false} CommentEndAfter(data: seq<byte>, p: nat)
    ensures CommentEnd(data, p) == 0 || CommentEnd(data, p) > p
    decreases |data| - p
  {
    if p < |data| && data[p] != 0 { CommentEndAfter(data, p + 1); }
  }

  lemma {:induction false} PiecesEndAfter(p: nat, step: nat, m: nat)
    ensures PiecesEnd(p, step, m) >= p
  {
    if m > 0 { PiecesEndAfter(p, step, m - 1); }
  }

  lemma {:induction false} ParamsAdvance(data: seq<byte>, c: byte, p: nat, f: Frame)
    ensures Params(data, c, p, f).Continues? ==> Params(data, c, p, f).pos >= p
  {
    if c == XCOMMENT { CommentEndAfter(data, p); }
    if c == XSDRINC && f.masked { PiecesEndAfter(p + f.size + 1, NumBytes(Popcount(f.mask)), At(data, p + f.size)); }
  }

  /** From p on, every command up to the one that ends the run has legal parameters.  The end of
      the file reads as an illegal command. */
  predicate WellFormed(data: seq<byte>, p: nat, f: Frame)
    decreases |data| - p
  {
    p >= |data| ||
    match Params(data, data[p], p + 1, f)
    case Malformed => false
    case Stops => true
    case Continues(q, g) => ParamsAdvance(data, data[p], p + 1, f); WellFormed(data, q, g)
  }
}
