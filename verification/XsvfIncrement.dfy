/** What XSDRINC promises: the values it shifts, bit by bit, and how each shift goes. */
module XsvfIncrement {
  import opened Bits
  import opened Tap
  import opened TapWalk
  import opened LenVals
  import opened Masking
  import opened Shifter
  import opened XsvfFormat
  import opened Scans
  import opened XsvfPromises
  import M = XsvfMeaning

  // ----- the values -----

  /** The positions below k that a mask selects. */
  ghost function Selected(mask: seq<byte>, k: nat): set<nat>
    requires k <= 8 * |mask|
  {
    set j: nat | j < k && BitAt(mask, j)
  }

  lemma {:induction false} RankCounts(mask: seq<byte>, k: nat)
    requires k <= 8 * |mask|
    ensures Rank(mask, k) == |Selected(mask, k)|
  {
    if k > 0 {
      RankCounts(mask, k - 1);
      assert Rank(mask, k) == RankThrough(mask, k - 1);
      var before := Selected(mask, k - 1);
      assert k - 1 !in before;
      assert Selected(mask, k) == if BitAt(mask, k - 1) then before + {k - 1} else before;
    } else {
      assert Selected(mask, k) == {};
    }
  }

  /** A value follows another: under the mask it has the bits of the piece of data, in order, and elsewhere those
      of the other plus the address mask. */
  ghost predicate Succeeds(now: seq<byte>, next: seq<byte>, address: seq<byte>, mask: seq<byte>, piece: seq<byte>)
  {
    |now| == |next| == |mask| && forall q: nat | q < 8 * |now| :: SucceedsAt(now, next, address, mask, piece, q)
  }

  ghost predicate SucceedsAt(now: seq<byte>, next: seq<byte>, address: seq<byte>, mask: seq<byte>, piece: seq<byte>,
      q: nat)
    requires q < 8 * |now| && |now| == |next| == |mask|
  {
    if BitAt(mask, q) then
      |Selected(mask, q)| < 8 * |piece| && BitAt(next, q) == BitAt(piece, |Selected(mask, q)|)
    else
      BitAt(next, q) == Bit((BytesValue(now) + BytesValue(address)) % Pow256(|now|), q)
  }

  lemma {:induction false} MergedSucceeds(now: seq<byte>, address: seq<byte>, mask: seq<byte>, piece: seq<byte>)
    requires |now| == |address| == |mask| && Popcount(mask) <= 8 * |piece|
    ensures Succeeds(now, Merged(Added(now, address, 0), mask, piece, |mask|), address, mask, piece)
  {
    var sum := Added(now, address, 0);
    var next := Merged(sum, mask, piece, |mask|);
    AddedValue(now, address, 0);
    forall q: nat | q < 8 * |now| ensures SucceedsAt(now, next, address, mask, piece, q) {
      MaskingMeans(sum, mask, piece, q);
      RankCounts(mask, q);
      BitOfValue(sum, q);
    }
  }

  lemma {:induction false} PiecesEndIs(p: nat, step: nat, m: nat)
    ensures PiecesEnd(p, step, m) == p + m * step
  {
    if m > 0 { PiecesEndIs(p, step, m - 1); }
  }

  /** The number of bytes of a piece of data: one bit for each that the mask selects. */
  ghost function PieceSize(mask: seq<byte>): nat
  {
    NumBytes(|Selected(mask, 8 * |mask|)|)
  }

  /** Each value follows the one before, with the next piece of data. */
  lemma {:induction false} ValueSucceeds(inc: Increment, k: nat)
    requires inc.Valid()
    ensures var n := PieceSize(inc.mask);
            && inc.Value(0) == inc.first
            && Succeeds(inc.Value(k), inc.Value(k + 1), inc.address, inc.mask, Taken(inc.data, inc.pos + k * n, n))
  {
    RankCounts(inc.mask, 8 * |inc.mask|);
    PiecesEndIs(inc.pos, PieceSize(inc.mask), k);
    MergedSucceeds(inc.Value(k), inc.address, inc.mask, inc.Piece(k));
    assert inc.Value(k + 1) == inc.ValueAfter(k);
  }

  // ----- the shifts -----

  /** One shift of a value, from one state of the player to the next. */
  ghost predicate ShiftsOne(tdo: seq<Event> -> bool, v: M.View, u: M.View, w: M.View, value: seq<byte>, n: nat)
    requires v.bits <= 8 * |value|
  {
    && NumBytes(v.bits) <= |u.captured|
    && Compared(NumBytes(v.bits), u.captured, w, Order(u.line, tdo, SHIFTDR, v.endDR, LowBits(value, v.bits), v.time),
        n,
                v.repeat, Expect(v.expected, v.expectedLen, v.mask, u.captured[NumBytes(v.bits)..]))
  }

  /** A player with other pins, another place in the stream, another answer. */
  ghost predicate Alike(v: M.View, u: M.View)
  {
    u == v.(pos := u.pos, line := u.line, err := u.err, captured := u.captured) && |u.captured| == |v.captured|
  }

  /** Values are shifted one after the other, until one fails; us are the player's states before, between and
      after, and ns the numbers of attempts. */
  ghost predicate ShiftsAll(tdo: seq<Event> -> bool, v: M.View, values: seq<seq<byte>>, us: seq<M.View>, ns: seq<nat>)
  {
    && 1 <= |ns| <= |values| && |us| == |ns| + 1 && us[0].line == v.line && us[0].captured == v.captured
    && (forall i | 0 <= i < |ns| :: ShiftsAt(tdo, v, values, us, ns, i))
    && (us[|ns|].err == ERROR_NONE ==> |ns| == |values|)
  }

  ghost predicate ShiftsAt(tdo: seq<Event> -> bool, v: M.View, values: seq<seq<byte>>, us: seq<M.View>, ns: seq<nat>,
      i: nat)
    requires i < |ns| <= |values| && |us| == |ns| + 1
  {
    us[i].err == ERROR_NONE && v.bits <= 8 * |values[i]| && ShiftsOne(tdo, v, us[i], us[i + 1], values[i], ns[i])
  }

  lemma {:induction false} ByPromise(tdo: seq<Event> -> bool, inc: Increment, v: M.View, u: M.View, k: nat, w: M.View)
      returns (n: nat)
    requires inc.Valid() && |inc.first| == NumBytes(v.bits) <= |v.captured| && v.bits > 0
    requires Alike(v, u) && u.err == ERROR_NONE && w == M.IncrementBy(tdo, inc, u, k)
    ensures ShiftsOne(tdo, v, u, w, inc.Value(k), n) && Alike(v, w) && w.pos == u.pos
  {
    var e := Expect(v.expected, v.expectedLen, v.mask, u.captured[NumBytes(v.bits)..]);
    n := DataPromise(tdo, u, inc.Value(k), e, v.endDR, v.time, v.repeat, w,
                     Order(u.line, tdo, SHIFTDR, v.endDR, LowBits(inc.Value(k), v.bits), v.time));
  }

  /** The values number 0 to k. */
  function ValuesTo(inc: Increment, k: nat): (vs: seq<seq<byte>>)
    requires inc.Valid()
    ensures |vs| == k + 1
  {
    seq(k + 1, i requires 0 <= i => inc.Value(i))
  }

  lemma {:induction false} MoreShifts(tdo: seq<Event> -> bool, v: M.View, values: seq<seq<byte>>, value: seq<byte>,
                                      us: seq<M.View>, ns: seq<nat>, w: M.View, n: nat)
    requires ShiftsAll(tdo, v, values, us, ns) && us[|ns|].err == ERROR_NONE && v.bits <= 8 * |value|
    requires ShiftsOne(tdo, v, us[|ns|], w, value, n)
    ensures ShiftsAll(tdo, v, values + [value], us + [w], ns + [n])
  {
    forall i | 0 <= i < |ns| + 1 ensures ShiftsAt(tdo, v, values + [value], us + [w], ns + [n], i) {
      if i < |ns| { assert ShiftsAt(tdo, v, values, us, ns, i); }
    }
  }

  lemma {:induction false} NoMoreShifts(tdo: seq<Event> -> bool, v: M.View, values: seq<seq<byte>>, value: seq<byte>,
                                        us: seq<M.View>, ns: seq<nat>)
    requires ShiftsAll(tdo, v, values, us, ns) && us[|ns|].err != ERROR_NONE
    ensures ShiftsAll(tdo, v, values + [value], us, ns)
  {
    forall i | 0 <= i < |ns| ensures ShiftsAt(tdo, v, values + [value], us, ns, i) {
      assert ShiftsAt(tdo, v, values, us, ns, i);
    }
  }

  lemma {:induction false} OneShift(tdo: seq<Event> -> bool, v: M.View, value: seq<byte>, u: M.View, w: M.View, n: nat)
    requires u.err == ERROR_NONE && v.bits <= 8 * |value| && ShiftsOne(tdo, v, u, w, value, n)
    requires u.line == v.line && u.captured == v.captured
    ensures ShiftsAll(tdo, v, [value], [u, w], [n])
  {
    forall i | 0 <= i < 1 ensures ShiftsAt(tdo, v, [value], [u, w], [n], i) {}
  }

  lemma {:induction false} ShiftsTo(tdo: seq<Event> -> bool, inc: Increment, v: M.View, p: nat, k: nat)
      returns (us: seq<M.View>, ns: seq<nat>)
    requires inc.Valid() && |inc.first| == NumBytes(v.bits) <= |v.captured| && v.bits > 0 && v.err == ERROR_NONE
    ensures ShiftsAll(tdo, v, ValuesTo(inc, k), us, ns)
    ensures us[|ns|] == M.IncrementTo(tdo, inc, v.(pos := p), k) && Alike(v, us[|ns|])
  {
    var w := M.IncrementTo(tdo, inc, v.(pos := p), k);
    if k == 0 {
      var u := v.(pos := p + |inc.first|);
      var n := ByPromise(tdo, inc, v, u, 0, w);
      us, ns := [u, w], [n];
      OneShift(tdo, v, inc.Value(0), u, w, n);
      assert ValuesTo(inc, k) == [inc.Value(0)];
    } else {
      us, ns := ShiftsTo(tdo, inc, v, p, k - 1);
      assert ValuesTo(inc, k) == ValuesTo(inc, k - 1) + [inc.Value(k)];
      assert w == M.IncrementAfter(tdo, inc, v.(pos := p), k - 1);
      var u := us[|ns|];
      if u.err == ERROR_NONE {
        var n := ByPromise(tdo, inc, v, u.(pos := PiecesEnd(inc.pos, NumBytes(Popcount(inc.mask)), k)), k, w);
        MoreShifts(tdo, v, ValuesTo(inc, k - 1), inc.Value(k), us, ns, w, n);
        us, ns := us + [w], ns + [n];
      } else {
        NoMoreShifts(tdo, v, ValuesTo(inc, k - 1), inc.Value(k), us, ns);
      }
    }
  }

  // ----- the command -----

  /** The values that a stream makes XSDRINC shift: the first one is read at p, and each of the others follows the
      one before. */
  ghost predicate Series(data: seq<byte>, p: nat, size: nat, address: seq<byte>, mask: seq<byte>,
      values: seq<seq<byte>>)
  {
    var pieces := p + size + 1;
    && values != [] && values[0] == Taken(data, p, size)
    && forall k: nat | k < |values| - 1 :: SeriesAt(data, pieces, address, mask, values, k)
  }

  ghost predicate SeriesAt(data: seq<byte>, p: nat, address: seq<byte>, mask: seq<byte>, values: seq<seq<byte>>, k: nat)
    requires k < |values| - 1
  {
    var n := PieceSize(mask);
    Succeeds(values[k], values[k + 1], address, mask, Taken(data, p + k * n, n))
  }

  lemma {:induction false} ValuesSeries(inc: Increment, p: nat, k: nat)
    requires inc.Valid() && inc.first == Taken(inc.data, p, |inc.first|) && inc.pos == p + |inc.first| + 1
    ensures Series(inc.data, p, |inc.first|, inc.address, inc.mask, ValuesTo(inc, k))
  {
    forall i: nat | i < k ensures SeriesAt(inc.data, inc.pos, inc.address, inc.mask, ValuesTo(inc, k), i) {
      ValueSucceeds(inc, i);
    }
    ValueSucceeds(inc, 0);
  }

  /** A player that XSDRINC may be given to: both masks have been set for the current length. */
  ghost predicate Increments(data: seq<byte>, v: M.View)
  {
    Before(data, v, XSDRINC) && v.bits > 0 && v.masked && |v.dataMask| == NumBytes(v.bits) <= 255
  }

  lemma {:induction false} TurnIncrements(data: seq<byte>, tdo: seq<Event> -> bool, v: M.View)
    requires Increments(data, v)
    ensures M.Values(data, v.(pos := v.pos + 1)).Valid()
    ensures M.Turn(data, tdo, v)
         == M.Incremented(tdo, M.Values(data, v.(pos := v.pos + 1)), v.(pos := v.pos + 1),
             At(data, v.pos + 1 + NumBytes(v.bits)))
  {
  }

  /** XSDRINC shifts the value read and then as many others as the byte after it says, each to the end state, waiting
      and trying again as set, and compares every answer with the last expected value under the mask; the first
      shift that fails is the last. */
  lemma {:induction false} SdrIncPromise(data: seq<byte>, tdo: seq<Event> -> bool, v: M.View)
      returns (values: seq<seq<byte>>, us: seq<M.View>, ns: seq<nat>)
    requires Increments(data, v)
    ensures var w, size := M.Turn(data, tdo, v), NumBytes(v.bits);
            var times := At(data, v.pos + 1 + size);
            && |values| == times + 1 && Series(data, v.pos + 1, size, v.address[..size], v.dataMask, values)
            && ShiftsAll(tdo, v, values, us, ns) && us[|ns|].(pos := w.pos) == w && Alike(v, w)
            && (w.err == ERROR_NONE ==> w.pos == v.pos + 2 + size + times * PieceSize(v.dataMask))
  {
    var p, size := v.pos + 1, NumBytes(v.bits);
    var inc, times := M.Values(data, v.(pos := p)), At(data, v.pos + 1 + size);
    TurnIncrements(data, tdo, v);
    values := ValuesTo(inc, times);
    ValuesSeries(inc, p, times);
    us, ns := ShiftsTo(tdo, inc, v, p, times);
    IncrementedIs(tdo, inc, v, p, times, us[|ns|]);
  }

  lemma {:induction false} IncrementedIs(tdo: seq<Event> -> bool, inc: Increment, v: M.View, p: nat, times: nat,
      u: M.View)
    requires inc.Valid() && u == M.IncrementTo(tdo, inc, v.(pos := p), times) && Alike(v, u)
    ensures var w := M.Incremented(tdo, inc, v.(pos := p), times);
            && u.(pos := w.pos) == w && Alike(v, w)
            && (w.err == ERROR_NONE ==> w.pos == inc.pos + times * PieceSize(inc.mask))
  {
    M.IncrementReads(tdo, inc, v.(pos := p), times);
    RankCounts(inc.mask, 8 * |inc.mask|);
    PiecesEndIs(inc.pos, PieceSize(inc.mask), times);
  }
}
