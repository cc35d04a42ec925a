/** What the XSVF commands promise, command by command: which bits go where, what is compared with what, and
    where the controller ends up. */
module XsvfPromises {
  import opened Bits
  import opened Tap
  import opened TapWalk
  import opened LenVals
  import opened Masking
  import opened Shifter
  import opened XsvfFormat
  import opened Scans
  import Packing
  import M = XsvfMeaning

  /** A player that goes on, before the given command. */
  ghost predicate Before(data: seq<byte>, v: M.View, c: byte)
  {
    && v.err == ERROR_NONE && !v.complete && v.pos < |data| && data[v.pos] == c && NumBytes(v.bits) <= MAX_LEN
    && |v.captured| == |v.expected| == |v.mask| == |v.address| == MAX_LEN + 1 && v.expectedLen <= MAX_LEN
    && (v.endDR == RUNTEST || v.endDR == PAUSEDR) && (v.endIR == RUNTEST || v.endIR == PAUSEIR)
  }

  /** The number that four bytes of the stream make. */
  function Number(data: seq<byte>, p: nat): nat
  {
    256 * (256 * (256 * At(data, p) + At(data, p + 1)) + At(data, p + 2)) + At(data, p + 3)
  }

  lemma {:induction false} NumberIs(data: seq<byte>, p: nat)
    ensures BytesValue(Taken(data, p, 4)) == Number(data, p)
  {
    ValueSnoc(Taken(data, p, 3), At(data, p + 3));
    ValueSnoc(Taken(data, p, 2), At(data, p + 2));
    ValueSnoc(Taken(data, p, 1), At(data, p + 1));
    ValueSnoc([], At(data, p));
    assert [] + [At(data, p)] == Taken(data, p, 1);
  }

  lemma {:induction false} TakenAt(data: seq<byte>, p: nat, n: nat, i: nat)
    requires i < n
    ensures Taken(data, p, n)[i] == At(data, p + i)
  {
    if i < n - 1 { TakenAt(data, p, n - 1, i); }
  }

  /** A command that does not shift, with parameters that have a meaning. */
  lemma {:induction false} TurnPlain(data: seq<byte>, tdo: seq<Event> -> bool, v: M.View, c: byte)
    requires Before(data, v, c) && M.IsPlain(c) && !Params(data, c, v.pos + 1, v.Frame()).Malformed?
    ensures M.Turn(data, tdo, v) == M.PlainMeaning(data, c, v.(pos := v.pos + 1))
  {
  }

  // ----- parameters -----

  lemma {:induction false} TdoMaskSet(data: seq<byte>, tdo: seq<Event> -> bool, v: M.View)
    requires Before(data, v, XTDOMASK)
    ensures var w, n := M.Turn(data, tdo, v), NumBytes(v.bits);
            && w == v.(pos := v.pos + 1 + n, mask := w.mask)
            && w.mask[..n] == Taken(data, v.pos + 1, n) && w.mask[n..] == v.mask[n..]
  {
  }

  lemma {:induction false} RunTestSet(data: seq<byte>, tdo: seq<Event> -> bool, v: M.View)
    requires Before(data, v, XRUNTEST)
    ensures M.Turn(data, tdo, v) == v.(pos := v.pos + 5, time := Number(data, v.pos + 1))
  {
    NumberIs(data, v.pos + 1);
  }

  lemma {:induction false} RepeatSet(data: seq<byte>, tdo: seq<Event> -> bool, v: M.View)
    requires Before(data, v, XREPEAT)
    ensures M.Turn(data, tdo, v) == v.(pos := v.pos + 2, repeat := At(data, v.pos + 1))
  {
  }

  /** A length that fits is the number of bits of later values; one that does not, and fits the short, stops the
      player. */
  lemma {:induction false} SizeSet(data: seq<byte>, tdo: seq<Event> -> bool, v: M.View)
    requires Before(data, v, XSDRSIZE)
    ensures var n := Number(data, v.pos + 1);
            && (n <= 8 * MAX_LEN ==> M.Turn(data, tdo, v) == v.(pos := v.pos + 5, bits := n))
            && (8 * MAX_LEN < n <= 8 * 0x7FFF ==> M.Turn(data, tdo, v).err == ERROR_DATAOVERFLOW)
  {
    if Number(data, v.pos + 1) <= 8 * 0x7FFF { TurnSizes(data, tdo, v); }
  }

  lemma {:induction false} TurnSizes(data: seq<byte>, tdo: seq<Event> -> bool, v: M.View)
    requires Before(data, v, XSDRSIZE) && Number(data, v.pos + 1) <= 8 * 0x7FFF
    ensures var n := Number(data, v.pos + 1);
            M.Turn(data, tdo, v) ==
            v.(pos := v.pos + 5, bits := n, err := if n <= 8 * MAX_LEN then ERROR_NONE else ERROR_DATAOVERFLOW)
  {
    NumberIs(data, v.pos + 1);
    TurnPlain(data, tdo, v, XSDRSIZE);
  }

  lemma {:induction false} MasksSet(data: seq<byte>, tdo: seq<Event> -> bool, v: M.View)
    requires Before(data, v, XSETSDRMASKS)
    ensures var w, n := M.Turn(data, tdo, v), NumBytes(v.bits);
            && w == v.(pos := v.pos + 1 + 2 * n, address := w.address, dataMask := w.dataMask, masked := true)
            && w.address[..n] == Taken(data, v.pos + 1, n) && w.address[n..] == v.address[n..]
            && w.dataMask == Taken(data, v.pos + 1 + n, n)
  {
    TurnPlain(data, tdo, v, XSETSDRMASKS);
  }

  /** A byte 0 makes shifts end in Run-Test/Idle, a byte 1 in the pause state; any other stops the player. */
  lemma {:induction false} EndSet(data: seq<byte>, tdo: seq<Event> -> bool, v: M.View, c: byte)
    requires Before(data, v, c) && (c == XENDIR || c == XENDDR)
    ensures var w, u, b := M.Turn(data, tdo, v), v.(pos := v.pos + 2), At(data, v.pos + 1);
            && (b == 0 ==> w == if c == XENDIR then u.(endIR := RUNTEST) else u.(endDR := RUNTEST))
            && (b == 1 ==> w == if c == XENDIR then u.(endIR := PAUSEIR) else u.(endDR := PAUSEDR))
            && (b > 1 ==> w == u.(err := ERROR_ILLEGALSTATE))
  {
  }

  /** A comment ends with its first zero byte. */
  lemma {:induction false} CommentSkipped(data: seq<byte>, tdo: seq<Event> -> bool, v: M.View, q: nat)
    requires Before(data, v, XCOMMENT) && v.pos < q < |data| && data[q] == 0
    requires forall i | v.pos < i < q :: data[i] != 0
    ensures M.Turn(data, tdo, v) == v.(pos := q + 1)
  {
    CommentEndIs(data, v.pos + 1, q);
  }

  lemma {:induction false} CommentEndIs(data: seq<byte>, p: nat, q: nat)
    requires p <= q < |data| && data[q] == 0 && forall i | p <= i < q :: data[i] != 0
    ensures CommentEnd(data, p) == q + 1
    decreases q - p
  {
    if p < q { CommentEndIs(data, p + 1, q); }
  }

  lemma {:induction false} Completed(data: seq<byte>, tdo: seq<Event> -> bool, v: M.View)
    requires Before(data, v, XCOMPLETE)
    ensures M.Turn(data, tdo, v) == v.(pos := v.pos + 1, complete := true)
  {
  }

  lemma {:induction false} IllegalStops(data: seq<byte>, tdo: seq<Event> -> bool, v: M.View, c: byte)
    requires Before(data, v, c) && (c == 5 || c == 6 || c >= XLASTCMD)
    ensures M.Turn(data, tdo, v) == v.(pos := v.pos + 1, err := ERROR_ILLEGALCMD)
  {
  }

  // ----- moves -----

  /** The tracked state is the controller's. */
  ghost predicate InStep(s: State, line: Line)
  {
    After(s, line.events) == StateOf(line.at)
  }

  lemma {:induction false} SoughtReaches(s: State, line: Line, target: Code)
    requires InStep(s, line)
    ensures InStep(s, M.Sought(line, target))
    ensures !Illegal(line.at, target) || target == RESET ==> M.Sought(line, target).at == target
  {
    GotoReaches(StateOf(line.at), line.at, target, line.tdi);
    AfterConcat(s, line.events, Goto(line.at, target, line.tdi));
  }

  /** The controller goes to the state named, or, for an Exit2 state that the pause state does not come before,
      stays where it is. */
  lemma {:induction false} StateReached(data: seq<byte>, tdo: seq<Event> -> bool, v: M.View, s: State, target: Code)
    requires Before(data, v, XSTATE) && At(data, v.pos + 1) == target && InStep(s, v.line)
    ensures var w := M.Turn(data, tdo, v);
            var bad := v.line.at != target && ((target == EXIT2DR && v.line.at != PAUSEDR)
                                               || (target == EXIT2IR && v.line.at != PAUSEIR));
            && w == v.(pos := v.pos + 2, line := w.line, err := w.err)
            && w.err == (if bad then ERROR_ILLEGALSTATE else ERROR_NONE)
            && (if bad then w.line == v.line else w.line.at == target && After(s, w.line.events) == StateOf(target))
  {
    TurnPlain(data, tdo, v, XSTATE);
    SoughtReaches(s, v.line, target);
    if Illegal(v.line.at, target) { NoMore(v.line.events); }
  }

  /** The controller goes to the first state, waits there for the time given, and goes to the second state. */
  lemma {:induction false} WaitVisits(data: seq<byte>, tdo: seq<Event> -> bool, v: M.View, s: State, first: Code,
      second: Code)
      returns (before: seq<Event>, after: seq<Event>)
    requires Before(data, v, XWAIT) && At(data, v.pos + 1) == first && At(data, v.pos + 2) == second &&
             InStep(s, v.line)
    requires first != EXIT2DR && first != EXIT2IR && second != EXIT2DR && second != EXIT2IR
    ensures var w := M.Turn(data, tdo, v);
            && w == v.(pos := v.pos + 7, line := w.line)
            && w.line.events == v.line.events + before + [Wait(Number(data, v.pos + 3))] + after
            && After(s, v.line.events + before) == StateOf(first)
            && After(s, w.line.events) == StateOf(second) && w.line.at == second
  {
    var time := Number(data, v.pos + 3);
    TurnWaits(data, tdo, v, first, second);
    before := Way(s, v.line, first);
    var there := M.Visited(v.line, first);
    AfterSnoc(s, there.events, Wait(time));
    after := Way(s, M.Paused(there, time), second);
  }

  lemma {:induction false} TurnWaits(data: seq<byte>, tdo: seq<Event> -> bool, v: M.View, first: Code, second: Code)
    requires Before(data, v, XWAIT) && At(data, v.pos + 1) == first && At(data, v.pos + 2) == second
    ensures var there := M.Paused(M.Visited(v.line, first), Number(data, v.pos + 3));
            M.Turn(data, tdo, v) == v.(pos := v.pos + 7, line := M.Visited(there, second))
  {
    TurnPlain(data, tdo, v, XWAIT);
    NumberIs(data, v.pos + 3);
  }

  /** The clocks of a visit. */
  lemma {:induction false} Way(s: State, line: Line, target: Code) returns (es: seq<Event>)
    requires InStep(s, line) && target != EXIT2DR && target != EXIT2IR
    ensures var w := M.Visited(line, target);
            w.events == line.events + es && w.at == target && w.tdi == line.tdi && InStep(s, w)
  {
    if line.at == target {
      es := [];
      NoMore(line.events);
    } else {
      es := Goto(line.at, target, line.tdi);
      SoughtReaches(s, line, target);
    }
  }

  // ----- shifts -----

  /** Attempts to shift these bits, starting from these pins. */
  function Order(line: Line, tdo: seq<Event> -> bool, start: Code, end: Code, bits: seq<bool>, time: nat): Run
  {
    Run(Job(start, end, bits, time), tdo, line.events, line.at, line.tdi, None, [])
  }

  /** The levels read, packed into bytes in front of what an older capture left, are the expected ones wherever
      the mask selects them. */
  ghost predicate Answers(got: seq<bool>, size: nat, e: Expect)
  {
    && e.len <= |e.bytes| && e.len <= |e.mask| && e.len <= size + |e.stale|
    && SameUnder(e.bytes, Packed(got, size) + e.stale, e.mask, e.len)
  }

  ghost predicate SameUnder(a: seq<byte>, b: seq<byte>, mask: seq<byte>, n: nat)
    requires n <= |a| && n <= |b| && n <= |mask|
  {
    forall i: nat, j: nat | i < n && j < 8 && Bit(mask[i], j) :: Bit(a[i], j) == Bit(b[i], j)
  }

  lemma {:induction false} AgreeIs(a: seq<byte>, b: seq<byte>, mask: seq<byte>, n: nat)
    requires n <= |a| && n <= |b| && n <= |mask|
    ensures Agree(a, b, mask, n) <==> SameUnder(a, b, mask, n)
  {
    AgreeMeans(a, b, mask, n);
    if SameUnder(a, b, mask, n) {
      forall i: nat, j: nat | i < n && j < 8 && Bit(mask[i], j) ensures Bit(a[i], j) == Bit(b[i], j) {}
    } else {
      var i: nat, j: nat :| i < n && j < 8 && Bit(mask[i], j) && Bit(a[i], j) != Bit(b[i], j);
      if And(a[i], mask[i]) == And(b[i], mask[i]) { MaskedBytesAgree(a[i], b[i], mask[i], j); }
      AgreePrefix(a, b, mask, n, i);
    }
  }

  /** For an expected value of the length shifted: the levels read are the expected bits wherever the mask
      selects them, and zero is expected above. */
  ghost predicate Matches(got: seq<bool>, expected: seq<byte>, mask: seq<byte>)
    requires |expected| <= |mask|
  {
    forall b: nat | b < 8 * |expected| && BitAt(mask[..|expected|], b) :: BitAt(expected, b) == (b < |got| && got[b])
  }

  /** n attempts are made: up to the first answer that is as expected, or as many as are allowed. */
  ghost predicate Tries(r: Run, n: nat, repeat: byte, size: nat, e: Expect)
  {
    && 1 <= n <= repeat + 1 && (forall j: nat | j < n - 1 :: !Answers(r.Reads(j), size, e))
    && (Answers(r.Reads(n - 1), size, e) || n == repeat + 1)
  }

  function Code3(found: bool, repeat: byte): int
  {
    if found then ERROR_NONE else if 1 <= repeat <= 254 then ERROR_MAXRETRIES else ERROR_TDOMISMATCH
  }

  /** The pins after n attempts. */
  ghost predicate Shifted(line: Line, r: Run, n: nat)
    requires r.job.bits != []
  {
    && line.events == r.Events(n, true) && line.tdi == r.job.bits[|r.job.bits| - 1]
    && line.at == if r.job.start == r.job.end then r.job.start else if r.job.time != 0 then RUNTEST else r.job.end
  }

  // ----- how a shift goes does not depend on what it is compared with -----

  ghost predicate SameOrder(a: Run, b: Run)
  {
    a.job == b.job && a.tdo == b.tdo && a.es == b.es && a.from == b.from && a.tdi == b.tdi
  }

  lemma {:induction false} SameEvents(a: Run, b: Run, n: nat, final: bool)
    requires SameOrder(a, b)
    ensures a.Events(n, final) == b.Events(n, final)
    decreases n
  {
    if n > 0 {
      SameEvents(a, b, n - 1, false);
      a.EventsStep(n - 1, final);
      b.EventsStep(n - 1, final);
    }
  }

  lemma {:induction false} SameReads(a: Run, b: Run, k: nat)
    requires SameOrder(a, b)
    ensures a.Reads(k) == b.Reads(k)
  {
    SameEvents(a, b, k, false);
  }

  /** The result, by the attempt that decides it. */
  lemma {:induction false} ResultIs(run: Run, repeat: byte, was: seq<byte>) returns (n: nat)
    requires run.job.bits != []
    ensures 1 <= n <= repeat + 1 && run.Missed(n - 1) && (run.HitAt(n - 1) || n == repeat + 1)
    ensures run.Result(repeat, was)
         == Outcome(run.Events(n, true), run.job.Settled(), run.job.LastBit(), Code3(run.HitAt(n - 1), repeat),
                    run.Captured(n, was))
  {
    var k := DecidingAttempt(run, 0, repeat);
    n := k + 1;
    EndsBy(run, n, repeat, Code3(run.HitAt(k), repeat), was);
  }

  lemma {:induction false} EndsBy(run: Run, n: nat, repeat: byte, err: int, was: seq<byte>)
    requires run.job.bits != [] && 1 <= n <= repeat + 1 && run.Missed(n - 1) && (run.HitAt(n - 1) || n == repeat + 1)
    requires err == Code3(run.HitAt(n - 1), repeat)
    ensures run.Result(repeat, was)
         == Outcome(run.Events(n, true), run.job.Settled(), run.job.LastBit(), err, run.Captured(n, was))
  {
    CodeSettles(run, n - 1, repeat, err);
    ConclusionIs(run, n, repeat, err, was);
    ResultTries(run, repeat, was);
  }

  lemma {:induction false} ResultTries(run: Run, repeat: byte, was: seq<byte>)
    requires run.job.bits != []
    ensures run.Result(repeat, was) == run.Tried(repeat, was)
  {
  }

  lemma {:induction false} CodeSettles(run: Run, k: nat, repeat: byte, err: int)
    requires run.HitAt(k) || k == repeat
    requires err == Code3(run.HitAt(k), repeat)
    ensures Settles(run, k, repeat, err)
  {
  }

  lemma {:induction false} HitAnswers(run: Run, r: Run, k: nat, e: Expect)
    requires SameOrder(run, r) && run.goal == Some(e)
    ensures run.HitAt(k) <==> Answers(r.Reads(k), |run.bytes|, e)
  {
    SameReads(run, r, k);
    var all := Packed(run.Reads(k), |run.bytes|) + e.stale;
    if e.len <= |e.bytes| && e.len <= |e.mask| && e.len <= |all| { AgreeIs(e.bytes, all, e.mask, e.len); }
  }

  /** What is expected, and no more, is this value of the length shifted. */
  ghost predicate Expects(e: Expect, expected: seq<byte>, size: nat)
  {
    e.len == size == |expected| <= |e.bytes| && e.bytes[..size] == expected && size <= |e.mask|
  }

  lemma {:induction false} AnswersMatch(got: seq<bool>, expected: seq<byte>, size: nat, e: Expect)
    requires Expects(e, expected, size) && |got| <= 8 * size
    ensures Answers(got, size, e) <==> Matches(got, expected, e.mask)
  {
    AgreeIs(e.bytes, Packed(got, size) + e.stale, e.mask, size);
    HitMeans(e, got, size);
  }

  lemma {:induction false} Tried(run: Run, r: Run, repeat: byte, was: seq<byte>, e: Expect) returns (n: nat)
    requires run.job.bits != [] && SameOrder(run, r) && run.goal == Some(e) && |run.bytes| <= |was|
    ensures Tries(r, n, repeat, |run.bytes|, e)
    ensures run.Result(repeat, was)
         == Outcome(r.Events(n, true), r.job.Settled(), r.job.LastBit(),
                    Code3(Answers(r.Reads(n - 1), |run.bytes|, e), repeat),
                    Packed(r.Reads(n - 1), |run.bytes|) + was[|run.bytes|..])
  {
    n := ResultIs(run, repeat, was);
    MissedAnswers(run, r, n - 1, e);
    HitAnswers(run, r, n - 1, e);
    SameEvents(run, r, n, true);
    CapturedIs(run, r, n, was);
  }

  lemma {:induction false} CapturedIs(run: Run, r: Run, n: nat, was: seq<byte>)
    requires SameOrder(run, r) && n > 0 && |run.bytes| <= |was|
    ensures run.Captured(n, was) == Packed(r.Reads(n - 1), |run.bytes|) + was[|run.bytes|..]
  {
    SameReads(run, r, n - 1);
  }

  lemma {:induction false} MissedAnswers(run: Run, r: Run, n: nat, e: Expect)
    requires SameOrder(run, r) && run.goal == Some(e) && run.Missed(n)
    ensures forall j: nat | j < n :: !Answers(r.Reads(j), |run.bytes|, e)
  {
    forall j: nat | j < n ensures !Answers(r.Reads(j), |run.bytes|, e) {
      MissedAt(run, n, j);
      HitAnswers(run, r, j, e);
    }
  }

  // ----- data register commands that compare -----

  /** The bits that a data register command at p sends. */
  function Sends(data: seq<byte>, p: nat, bits: nat): seq<bool>
  {
    LowBits(Taken(data, p, NumBytes(bits)), bits)
  }

  /** A data register command shifts its value to the end state, and waits as set. */
  function ValueOrder(data: seq<byte>, tdo: seq<Event> -> bool, v: M.View): Run
  {
    Order(v.line, tdo, SHIFTDR, v.endDR, Sends(data, v.pos + 1, v.bits), v.time)
  }

  lemma {:induction false} OrderBits(data: seq<byte>, tdo: seq<Event> -> bool, v: M.View)
    ensures |ValueOrder(data, tdo, v).job.bits| == v.bits
  {
  }

  /** A comparing command: the attempts it makes, where they leave the pins, the error code, and the answer kept. */
  ghost predicate Compared(size: nat, was: seq<byte>, w: M.View, r: Run, n: nat, repeat: byte, e: Expect)
  {
    && Tries(r, n, repeat, size, e) && r.job.bits != [] && Shifted(w.line, r, n) && size <= |was|
    && w.err == Code3(Answers(r.Reads(n - 1), size, e), repeat)
    && w.captured == Packed(r.Reads(n - 1), size) + was[size..]
  }

  lemma {:induction false} DataPromise(tdo: seq<Event> -> bool, v: M.View, bytes: seq<byte>, e: Expect, end: Code,
      time: nat,
                                       repeat: byte, w: M.View, r: Run) returns (n: nat)
    requires v.bits > 0 && v.err == ERROR_NONE && |bytes| == NumBytes(v.bits) <= |v.captured|
    requires w == M.Data(tdo, v, bytes, Some(e), end, time, repeat)
    requires r == Order(v.line, tdo, SHIFTDR, end, LowBits(bytes, v.bits), time)
    ensures Compared(NumBytes(v.bits), v.captured, w, r, n, repeat, e)
    ensures w == v.(line := w.line, err := w.err, captured := w.captured)
  {
    n := Tried(r.(goal := Some(e), bytes := bytes), r, repeat, v.captured, e);
  }

  lemma {:induction false} TurnIs(data: seq<byte>, tdo: seq<Event> -> bool, v: M.View, c: byte)
    requires Before(data, v, c) && M.IsData(c)
    ensures M.Turn(data, tdo, v) == M.DataMeaning(data, tdo, c, v.(pos := v.pos + 1))
  {
    MeaningIs(data, tdo, v.(pos := v.pos + 1), c);
  }

  lemma {:induction false} MeaningIs(data: seq<byte>, tdo: seq<Event> -> bool, u: M.View, c: byte)
    requires M.IsData(c)
    ensures M.Meaning(data, tdo, c, u) == M.DataMeaning(data, tdo, c, u)
  {
    DataParams(data, c, u.pos, u.Frame());
  }

  lemma {:induction false} DataParams(data: seq<byte>, c: byte, p: nat, f: Frame)
    requires M.IsData(c)
    ensures Params(data, c, p, f).Continues?
  {
  }

  /** What a value read from the stream is compared as: in front of the last, longer one. */
  function Fresh(data: seq<byte>, v: M.View, mask: seq<byte>): Expect
    requires NumBytes(v.bits) <= |v.expected| && NumBytes(v.bits) <= |v.captured|
  {
    var size := NumBytes(v.bits);
    Expect(Taken(data, v.pos + 1 + size, size) + v.expected[size..], size, mask, v.captured[size..])
  }

  /** A player that has read both values and shifted one; nothing else has changed. */
  ghost predicate PastValues(data: seq<byte>, v: M.View, mask: seq<byte>, w: M.View)
    requires NumBytes(v.bits) <= |v.expected| && NumBytes(v.bits) <= |v.captured|
  {
    var e := Fresh(data, v, mask);
    w == v.(pos := v.pos + 1 + 2 * NumBytes(v.bits), line := w.line, err := w.err, captured := w.captured,
            expected := e.bytes, expectedLen := e.len)
  }

  lemma {:induction false} FreshIs(data: seq<byte>, v: M.View, mask: seq<byte>)
    requires NumBytes(v.bits) <= |v.expected| && NumBytes(v.bits) <= |v.captured| && NumBytes(v.bits) <= |mask|
    ensures var size := NumBytes(v.bits);
            Expects(Fresh(data, v, mask), Taken(data, v.pos + 1 + size, size), size)
  {
    var size := NumBytes(v.bits);
    FrontOf(Taken(data, v.pos + 1 + size, size), v.expected[size..], size);
  }

  function Last(v: M.View): Expect
    requires NumBytes(v.bits) <= |v.captured|
  {
    Expect(v.expected, v.expectedLen, v.mask, v.captured[NumBytes(v.bits)..])
  }

  /** XSDRTDO shifts the value read to the end state, comparing with the value after it under the mask, and tries
      again as often as set; it waits as set, and nothing else changes. */
  lemma {:induction false} SdrTdoPromise(data: seq<byte>, tdo: seq<Event> -> bool, v: M.View) returns (n: nat)
    requires Before(data, v, XSDRTDO) && v.bits > 0
    ensures var w := M.Turn(data, tdo, v);
            && Compared(NumBytes(v.bits), v.captured, w, ValueOrder(data, tdo, v), n, v.repeat, Fresh(data, v, v.mask))
            && PastValues(data, v, v.mask, w)
  {
    TurnComparesFresh(data, tdo, v);
    n := FreshPromise(data, tdo, v, M.Turn(data, tdo, v), v.mask, v.endDR, v.time, v.repeat, ValueOrder(data, tdo, v));
  }

  /** A value compared with the one after it. */
  lemma {:induction false} FreshPromise(data: seq<byte>, tdo: seq<Event> -> bool, v: M.View, w: M.View,
      mask: seq<byte>, end: Code,
                                        time: nat, repeat: byte, r: Run) returns (n: nat)
    requires v.bits > 0 && v.err == ERROR_NONE && NumBytes(v.bits) <= |v.expected| && NumBytes(v.bits) <= |v.captured|
    requires r == Order(v.line, tdo, SHIFTDR, end, Sends(data, v.pos + 1, v.bits), time)
    requires w == M.Data(tdo, M.Expecting(data, v.(pos := v.pos + 1)), Taken(data, v.pos + 1, NumBytes(v.bits)),
                         Some(Fresh(data, v, mask)), end, time, repeat)
    ensures Compared(NumBytes(v.bits), v.captured, w, r, n, repeat, Fresh(data, v, mask)) &&
            PastValues(data, v, mask, w)
  {
    var u := M.Expecting(data, v.(pos := v.pos + 1));
    n := DataPromise(tdo, u, Taken(data, v.pos + 1, NumBytes(v.bits)), Fresh(data, v, mask), end, time, repeat, w, r);
  }

  lemma {:induction false} TurnComparesFresh(data: seq<byte>, tdo: seq<Event> -> bool, v: M.View)
    requires Before(data, v, XSDRTDO)
    ensures M.Turn(data, tdo, v)
         == M.Data(tdo, M.Expecting(data, v.(pos := v.pos + 1)), Taken(data, v.pos + 1, NumBytes(v.bits)),
                   Some(Fresh(data, v, v.mask)), v.endDR, v.time, v.repeat)
  {
    TurnIs(data, tdo, v, XSDRTDO);
    GoalFresh(data, v, v.mask);
  }

  lemma {:induction false} GoalFresh(data: seq<byte>, v: M.View, mask: seq<byte>)
    requires NumBytes(v.bits) <= |v.expected| && NumBytes(v.bits) <= |v.captured|
    ensures M.Goal(M.Expecting(data, v.(pos := v.pos + 1)), mask) == Fresh(data, v, mask)
  {
  }

  /** XSDR does the same with the last expected value. */
  lemma {:induction false} SdrPromise(data: seq<byte>, tdo: seq<Event> -> bool, v: M.View) returns (n: nat)
    requires Before(data, v, XSDR) && v.bits > 0
    ensures var w := M.Turn(data, tdo, v);
            && Compared(NumBytes(v.bits), v.captured, w, ValueOrder(data, tdo, v), n, v.repeat, Last(v))
            && w == v.(pos := v.pos + 1 + NumBytes(v.bits), line := w.line, err := w.err, captured := w.captured)
  {
    var u, w := M.Past(v.(pos := v.pos + 1)), M.Turn(data, tdo, v);
    TurnIs(data, tdo, v, XSDR);
    n := DataPromise(tdo, u, Taken(data, v.pos + 1, NumBytes(v.bits)), Last(v), v.endDR, v.time, v.repeat, w,
                     ValueOrder(data, tdo, v));
  }

  /** Every bit. */
  function NoMask(): seq<byte>
  {
    seq(MAX_LEN + 1, _ => 255)
  }

  lemma {:induction false} UnmaskedIs(data: seq<byte>, tdo: seq<Event> -> bool, v: M.View, c: byte)
    requires c == XSDRTDOB || c == XSDRTDOC || c == XSDRTDOE
    ensures M.DataMeaning(data, tdo, c, v)
         == M.Data(tdo, M.Expecting(data, v), Taken(data, v.pos, v.Size()),
             Some(M.Goal(M.Expecting(data, v), NoMask())),
                   if c == XSDRTDOE then v.endDR else SHIFTDR, 0, 0)
  {
    assert MaskBytes(null) == NoMask();
  }

  /** The attempt of XSDRTDOB and XSDRTDOC, which stay in Shift-DR, and of XSDRTDOE, which leaves it. */
  function PartOrder(data: seq<byte>, tdo: seq<Event> -> bool, v: M.View, c: byte): Run
  {
    Order(v.line, tdo, SHIFTDR, if c == XSDRTDOE then v.endDR else SHIFTDR, Sends(data, v.pos + 1, v.bits), 0)
  }

  lemma {:induction false} TurnComparesAll(data: seq<byte>, tdo: seq<Event> -> bool, v: M.View, c: byte)
    requires Before(data, v, c) && (c == XSDRTDOB || c == XSDRTDOC || c == XSDRTDOE)
    ensures M.Turn(data, tdo, v)
         == M.Data(tdo, M.Expecting(data, v.(pos := v.pos + 1)), Taken(data, v.pos + 1, NumBytes(v.bits)),
                   Some(Fresh(data, v, NoMask())), if c == XSDRTDOE then v.endDR else SHIFTDR, 0, 0)
  {
    TurnIs(data, tdo, v, c);
    UnmaskedIs(data, tdo, v.(pos := v.pos + 1), c);
    GoalFresh(data, v, NoMask());
  }

  /** They compare every bit, once, and do not wait. */
  lemma {:induction false} TdoPartPromise(data: seq<byte>, tdo: seq<Event> -> bool, v: M.View, c: byte) returns (n: nat)
    requires Before(data, v, c) && (c == XSDRTDOB || c == XSDRTDOC || c == XSDRTDOE) && v.bits > 0
    ensures var w := M.Turn(data, tdo, v);
            && n == 1
            && Compared(NumBytes(v.bits), v.captured, w, PartOrder(data, tdo, v, c), n, 0, Fresh(data, v, NoMask()))
            && PastValues(data, v, NoMask(), w)
  {
    TurnComparesAll(data, tdo, v, c);
    n := FreshPromise(data, tdo, v, M.Turn(data, tdo, v), NoMask(), if c == XSDRTDOE then v.endDR else SHIFTDR, 0, 0,
                      PartOrder(data, tdo, v, c));
  }

  // ----- when they succeed -----

  /** The levels read are the expected bits, and zero is expected above. */
  ghost predicate EveryBit(got: seq<bool>, expected: seq<byte>)
  {
    forall b: nat | b < 8 * |expected| :: BitAt(expected, b) == (b < |got| && got[b])
  }

  /** One of the attempts allowed reads what is expected. */
  ghost predicate SomeTry(r: Run, repeat: byte, expected: seq<byte>, mask: seq<byte>)
    requires |expected| <= |mask|
  {
    exists k: nat :: k <= repeat && Matches(r.Reads(k), expected, mask)
  }

  lemma {:induction false} Succeeds(v: M.View, w: M.View, r: Run, n: nat, repeat: byte, expected: seq<byte>, e: Expect)
    requires Compared(NumBytes(v.bits), v.captured, w, r, n, repeat, e) && |r.job.bits| == v.bits
    requires Expects(e, expected, NumBytes(v.bits))
    ensures w.err == ERROR_NONE <==> SomeTry(r, repeat, expected, e.mask)
  {
    var size := |expected|;
    forall k: nat ensures Answers(r.Reads(k), size, e) <==> Matches(r.Reads(k), expected, e.mask) {
      AnswersMatch(r.Reads(k), expected, size, e);
    }
    if Answers(r.Reads(n - 1), size, e) { assert Matches(r.Reads(n - 1), expected, e.mask) && n - 1 <= repeat; }
  }

  /** XSDRTDO succeeds exactly if in one of the attempts allowed every bit that the mask selects is read as the
      stream says. */
  lemma {:induction false} SdrTdoSucceeds(data: seq<byte>, tdo: seq<Event> -> bool, v: M.View)
    requires Before(data, v, XSDRTDO) && v.bits > 0
    ensures var size := NumBytes(v.bits);
            M.Turn(data, tdo, v).err == ERROR_NONE
            <==> SomeTry(ValueOrder(data, tdo, v), v.repeat, Taken(data, v.pos + 1 + size, size), v.mask)
  {
    var n := SdrTdoPromise(data, tdo, v);
    OrderBits(data, tdo, v);
    FreshSucceeds(data, v, M.Turn(data, tdo, v), ValueOrder(data, tdo, v), n);
  }

  lemma {:induction false} FreshSucceeds(data: seq<byte>, v: M.View, w: M.View, r: Run, n: nat)
    requires NumBytes(v.bits) <= |v.expected| && NumBytes(v.bits) <= |v.captured| && NumBytes(v.bits) <= |v.mask|
    requires Compared(NumBytes(v.bits), v.captured, w, r, n, v.repeat, Fresh(data, v, v.mask)) && |r.job.bits| == v.bits
    ensures var size := NumBytes(v.bits);
            w.err == ERROR_NONE <==> SomeTry(r, v.repeat, Taken(data, v.pos + 1 + size, size), v.mask)
  {
    var size := NumBytes(v.bits);
    var expected := Taken(data, v.pos + 1 + size, size);
    FreshIs(data, v, v.mask);
    Succeeds(v, w, r, n, v.repeat, expected, Fresh(data, v, v.mask));
  }

  /** XSDR, if the last expected value has the current length, exactly if every bit that the mask selects is read
      as that value says. */
  lemma {:induction false} SdrSucceeds(data: seq<byte>, tdo: seq<Event> -> bool, v: M.View)
    requires Before(data, v, XSDR) && v.bits > 0 && v.expectedLen == NumBytes(v.bits)
    ensures M.Turn(data, tdo, v).err == ERROR_NONE
            <==> SomeTry(ValueOrder(data, tdo, v), v.repeat, v.expected[..NumBytes(v.bits)], v.mask)
  {
    var w, size := M.Turn(data, tdo, v), NumBytes(v.bits);
    var n := SdrPromise(data, tdo, v);
    OrderBits(data, tdo, v);
    Succeeds(v, w, ValueOrder(data, tdo, v), n, v.repeat,
             v.expected[..size], Last(v));
  }

  /** XSDRTDOB, XSDRTDOC and XSDRTDOE, exactly if in their one attempt, which is number 0, every bit is read as the
      stream says. */
  lemma {:induction false} TdoPartSucceeds(data: seq<byte>, tdo: seq<Event> -> bool, v: M.View, c: byte, k: nat)
    requires Before(data, v, c) && (c == XSDRTDOB || c == XSDRTDOC || c == XSDRTDOE) && v.bits > 0 && k == 0
    ensures var size := NumBytes(v.bits);
            M.Turn(data, tdo, v).err == ERROR_NONE
            <==> EveryBit(PartOrder(data, tdo, v, c).Reads(k), Taken(data, v.pos + 1 + size, size))
  {
    var n := TdoPartPromise(data, tdo, v, c);
    PartSucceeds(data, v, M.Turn(data, tdo, v), PartOrder(data, tdo, v, c), n, k);
  }

  lemma {:induction false} PartSucceeds(data: seq<byte>, v: M.View, w: M.View, r: Run, n: nat, k: nat)
    requires NumBytes(v.bits) <= |v.expected| && NumBytes(v.bits) <= |v.captured| && NumBytes(v.bits) <= MAX_LEN
    requires Compared(NumBytes(v.bits), v.captured, w, r, n, 0, Fresh(data, v, NoMask())) && |r.job.bits| == v.bits
    requires k == 0
    ensures var size := NumBytes(v.bits);
            w.err == ERROR_NONE <==> EveryBit(r.Reads(k), Taken(data, v.pos + 1 + size, size))
  {
    var size := NumBytes(v.bits);
    var expected := Taken(data, v.pos + 1 + size, size);
    FreshIs(data, v, NoMask());
    OneTry(v, w, r, n, Fresh(data, v, NoMask()), k);
    AnswersAll(r.Reads(k), expected, size, Fresh(data, v, NoMask()));
  }

  lemma {:induction false} AnswersAll(got: seq<bool>, expected: seq<byte>, size: nat, e: Expect)
    requires Expects(e, expected, size) && |got| <= 8 * size && size <= MAX_LEN && e.mask == NoMask()
    ensures Answers(got, size, e) <==> EveryBit(got, expected)
  {
    AnswersMatch(got, expected, size, e);
    AllSelected(got, expected);
  }

  lemma {:induction false} OneTry(v: M.View, w: M.View, r: Run, n: nat, e: Expect, k: nat)
    requires Compared(NumBytes(v.bits), v.captured, w, r, n, 0, e) && k == 0
    ensures w.err == ERROR_NONE <==> Answers(r.Reads(k), NumBytes(v.bits), e)
  {
  }

  lemma {:induction false} AllSelected(got: seq<bool>, expected: seq<byte>)
    requires |expected| <= MAX_LEN
    ensures Matches(got, expected, NoMask()) <==> EveryBit(got, expected)
  {
    forall b: nat | b < 8 * |expected| ensures BitAt(NoMask()[..|expected|], b) { OnesAll(b % 8); }
  }

  lemma {:induction false} OnesAll(b: nat)
    requires b < 8
    ensures Bit(255, b)
  {
    Packing.OnesBit(8, b);
    Pow2Eight();
  }

  lemma {:induction false} FrontOf(a: seq<byte>, b: seq<byte>, n: nat)
    requires n == |a|
    ensures (a + b)[..n] == a
  {
  }

  // ----- bits outside the mask do not matter -----

  /** Two expected values have the same bits wherever the mask selects them. */
  ghost predicate SameSelected(a: seq<byte>, b: seq<byte>, mask: seq<byte>)
    requires |a| == |b| <= |mask|
  {
    forall i: nat | i < 8 * |a| && BitAt(mask[..|a|], i) :: BitAt(a, i) == BitAt(b, i)
  }

  /** Two expectations that no attempt tells apart. */
  ghost predicate SameVerdicts(r: Run, size: nat, e: Expect, f: Expect)
  {
    forall k: nat :: Answers(r.Reads(k), size, e) <==> Answers(r.Reads(k), size, f)
  }

  lemma {:induction false} SameTries(r: Run, n: nat, m: nat, repeat: byte, size: nat, e: Expect, f: Expect)
    requires Tries(r, n, repeat, size, e) && Tries(r, m, repeat, size, f) && SameVerdicts(r, size, e, f)
    ensures n == m
  {
  }

  lemma {:induction false} SameMatches(got: seq<bool>, a: seq<byte>, b: seq<byte>, mask: seq<byte>)
    requires |a| == |b| <= |mask| && SameSelected(a, b, mask)
    ensures Matches(got, a, mask) <==> Matches(got, b, mask)
  {
  }

  ghost predicate SameButExpected(w: M.View, u: M.View)
  {
    w == u.(expected := w.expected)
  }

  lemma {:induction false} SameOrders(data: seq<byte>, other: seq<byte>, tdo: seq<Event> -> bool, v: M.View)
    requires Taken(data, v.pos + 1, NumBytes(v.bits)) == Taken(other, v.pos + 1, NumBytes(v.bits))
    ensures ValueOrder(data, tdo, v) == ValueOrder(other, tdo, v) && |ValueOrder(data, tdo, v).job.bits| == v.bits
  {
  }

  /** Two streams whose XSDRTDO commands differ only in expected bits that the mask leaves out drive the same
      clocks and come to the same end. */
  lemma {:induction false} MaskedOut(data: seq<byte>, other: seq<byte>, tdo: seq<Event> -> bool, v: M.View)
    requires Before(data, v, XSDRTDO) && Before(other, v, XSDRTDO) && v.bits > 0
    requires var size, p := NumBytes(v.bits), v.pos + 1;
             && Taken(data, p, size) == Taken(other, p, size)
             && SameSelected(Taken(data, p + size, size), Taken(other, p + size, size), v.mask)
    ensures SameButExpected(M.Turn(data, tdo, v), M.Turn(other, tdo, v))
  {
    var n := SdrTdoPromise(data, tdo, v);
    var m := SdrTdoPromise(other, tdo, v);
    SameOrders(data, other, tdo, v);
    DifferMasked(data, other, v, M.Turn(data, tdo, v), M.Turn(other, tdo, v), ValueOrder(data, tdo, v), n, m);
  }

  lemma {:induction false} DifferMasked(data: seq<byte>, other: seq<byte>, v: M.View, w: M.View, u: M.View, r: Run,
      n: nat,
                                        m: nat)
    requires NumBytes(v.bits) <= |v.expected| && NumBytes(v.bits) <= |v.captured| && NumBytes(v.bits) <= |v.mask|
    requires |r.job.bits| == v.bits
    requires var size, p := NumBytes(v.bits), v.pos + 1;
             SameSelected(Taken(data, p + size, size), Taken(other, p + size, size), v.mask)
    requires Compared(NumBytes(v.bits), v.captured, w, r, n, v.repeat, Fresh(data, v, v.mask))
    requires Compared(NumBytes(v.bits), v.captured, u, r, m, v.repeat, Fresh(other, v, v.mask))
    requires PastValues(data, v, v.mask, w) && PastValues(other, v, v.mask, u)
    ensures SameButExpected(w, u)
  {
    SameFresh(data, other, v, r);
    SameEnd(v, w, u, r, n, m, v.repeat, Fresh(data, v, v.mask), Fresh(other, v, v.mask));
  }

  lemma {:induction false} SameFresh(data: seq<byte>, other: seq<byte>, v: M.View, r: Run)
    requires NumBytes(v.bits) <= |v.expected| && NumBytes(v.bits) <= |v.captured| && NumBytes(v.bits) <= |v.mask|
    requires |r.job.bits| == v.bits
    requires var size, p := NumBytes(v.bits), v.pos + 1;
             SameSelected(Taken(data, p + size, size), Taken(other, p + size, size), v.mask)
    ensures SameVerdicts(r, NumBytes(v.bits), Fresh(data, v, v.mask), Fresh(other, v, v.mask))
  {
    var size, p := NumBytes(v.bits), v.pos + 1;
    FreshIs(data, v, v.mask);
    FreshIs(other, v, v.mask);
    AlwaysSame(r, Taken(data, p + size, size), Taken(other, p + size, size), size, Fresh(data, v, v.mask),
               Fresh(other, v, v.mask));
  }

  lemma {:induction false} AlwaysSame(r: Run, a: seq<byte>, b: seq<byte>, size: nat, e: Expect, f: Expect)
    requires Expects(e, a, size) && Expects(f, b, size) && e.mask == f.mask && |r.job.bits| <= 8 * size
    requires SameSelected(a, b, e.mask)
    ensures SameVerdicts(r, size, e, f)
  {
    forall k: nat ensures Answers(r.Reads(k), size, e) <==> Answers(r.Reads(k), size, f) {
      AnswersMatch(r.Reads(k), a, size, e);
      AnswersMatch(r.Reads(k), b, size, f);
      SameMatches(r.Reads(k), a, b, e.mask);
    }
  }

  lemma {:induction false} SameEnd(v: M.View, w: M.View, u: M.View, r: Run, n: nat, m: nat, repeat: byte, e: Expect,
      f: Expect)
    requires Compared(NumBytes(v.bits), v.captured, w, r, n, repeat, e) &&
             Compared(NumBytes(v.bits), v.captured, u, r, m, repeat, f)
    requires SameVerdicts(r, NumBytes(v.bits), e, f)
    ensures w.line == u.line && w.err == u.err && w.captured == u.captured
  {
    SameTries(r, n, m, repeat, NumBytes(v.bits), e, f);
  }

  // ----- commands that do not compare -----

  lemma {:induction false} SilentPromise(v: M.View, run: Run, keep: bool)
    requires v.err == ERROR_NONE && run.job.bits != [] && run.goal.None? && !keep
    ensures var w := M.Shot(v, run, 0, keep);
            Shifted(w.line, run, 1) && w == v.(line := w.line)
  {
    EndsOnce(run);
    OutcomeIs(run, 1, 0, ERROR_NONE, run.Events(1, true), run.job.Settled(), run.job.LastBit(), v.captured);
  }

  /** XSDRB and XSDRC shift the value read and stay in Shift-DR, XSDRE shifts it and leaves it; nothing is compared or
      kept. */
  lemma {:induction false} PartPromise(data: seq<byte>, tdo: seq<Event> -> bool, v: M.View, c: byte)
    requires Before(data, v, c) && (c == XSDRB || c == XSDRC || c == XSDRE) && v.bits > 0
    ensures var w, p := M.Turn(data, tdo, v), v.pos + 1;
            var r := Order(v.line, tdo, SHIFTDR, if c == XSDRE then v.endDR else SHIFTDR, Sends(data, p, v.bits), 0);
            Shifted(w.line, r, 1) && w == v.(pos := p + NumBytes(v.bits), line := w.line)
  {
    TurnIs(data, tdo, v, c);
    ScanPromise(data, tdo, v, M.Turn(data, tdo, v), if c == XSDRE then v.endDR else SHIFTDR);
  }

  lemma {:induction false} ScanPromise(data: seq<byte>, tdo: seq<Event> -> bool, v: M.View, w: M.View, end: Code)
    requires v.bits > 0 && v.err == ERROR_NONE
    requires w == M.Data(tdo, M.Past(v.(pos := v.pos + 1)), Taken(data, v.pos + 1, NumBytes(v.bits)), None, end, 0, 0)
    ensures Shifted(w.line, Order(v.line, tdo, SHIFTDR, end, Sends(data, v.pos + 1, v.bits), 0), 1)
    ensures w == v.(pos := v.pos + 1 + NumBytes(v.bits), line := w.line)
  {
    var r := Order(v.line, tdo, SHIFTDR, end, Sends(data, v.pos + 1, v.bits), 0);
    var run := r.(bytes := Taken(data, v.pos + 1, NumBytes(v.bits)));
    SilentPromise(M.Past(v.(pos := v.pos + 1)), run, false);
    SameEvents(run, r, 1, true);
  }

  /** XSIR and XSIR2 shift exactly as many bits as their length says through the instruction register, to its end
      state, and wait as set. */
  lemma {:induction false} InstructionPromise(data: seq<byte>, tdo: seq<Event> -> bool, v: M.View, c: byte, n: nat)
    requires Before(data, v, c) && 0 < n
    requires (c == XSIR && n == At(data, v.pos + 1))
          || (c == XSIR2 && n == 256 * At(data, v.pos + 1) + At(data, v.pos + 2) <= 8 * MAX_LEN)
    ensures var w, p := M.Turn(data, tdo, v), v.pos + if c == XSIR then 2 else 3;
            var r := Order(v.line, tdo, SHIFTIR, v.endIR, Sends(data, p, n), v.time);
            Shifted(w.line, r, 1) && w == v.(pos := p + NumBytes(n), line := w.line)
  {
    var p := v.pos + if c == XSIR then 2 else 3;
    var r := Order(v.line, tdo, SHIFTIR, v.endIR, Sends(data, p, n), v.time);
    var run := r.(bytes := Taken(data, p, NumBytes(n)));
    TurnInstructs(data, tdo, v, c, n);
    SilentPromise(v.(pos := p + NumBytes(n)), run, false);
    SameEvents(run, r, 1, true);
  }

  lemma {:induction false} TurnInstructs(data: seq<byte>, tdo: seq<Event> -> bool, v: M.View, c: byte, n: nat)
    requires Before(data, v, c)
    requires (c == XSIR && n == At(data, v.pos + 1))
          || (c == XSIR2 && n == 256 * At(data, v.pos + 1) + At(data, v.pos + 2) <= 8 * MAX_LEN)
    ensures M.Turn(data, tdo, v)
         == M.Instruction(data, tdo, v.(pos := v.pos + 1), n, v.pos + if c == XSIR then 2 else 3)
  {
    if c == XSIR2 { TurnIfFits(data, tdo, v, n); }
  }

  lemma {:induction false} TwoBytes(data: seq<byte>, p: nat)
    ensures BytesValue(Taken(data, p, 2)) == 256 * At(data, p) + At(data, p + 1)
  {
    ValueSnoc(Taken(data, p, 1), At(data, p + 1));
    ValueSnoc([], At(data, p));
    assert [] + [At(data, p)] == Taken(data, p, 1);
  }

  lemma {:induction false} TurnIfFits(data: seq<byte>, tdo: seq<Event> -> bool, v: M.View, n: nat)
    requires Before(data, v, XSIR2) && n == 256 * At(data, v.pos + 1) + At(data, v.pos + 2)
    ensures M.Turn(data, tdo, v) == M.IfFits(data, tdo, v.(pos := v.pos + 1), n, v.pos + 3)
  {
    TwoBytes(data, v.pos + 1);
    TurnSir2(data, tdo, v, n);
  }

  lemma {:induction false} TurnSir2(data: seq<byte>, tdo: seq<Event> -> bool, v: M.View, n: nat)
    requires Before(data, v, XSIR2) && n == BytesValue(Taken(data, v.pos + 1, 2))
    ensures M.Turn(data, tdo, v) == M.IfFits(data, tdo, v.(pos := v.pos + 1), n, v.pos + 3)
  {
  }

  /** A length of two bytes that does not fit the buffers stops the player. */
  lemma {:induction false} InstructionTooLong(data: seq<byte>, tdo: seq<Event> -> bool, v: M.View, n: nat)
    requires Before(data, v, XSIR2) && n == 256 * At(data, v.pos + 1) + At(data, v.pos + 2) > 8 * MAX_LEN
    ensures M.Turn(data, tdo, v) == v.(pos := v.pos + 3, err := ERROR_DATAOVERFLOW)
  {
    TurnIfFits(data, tdo, v, n);
  }

  /** Without any bits a shift only waits, if it has to, in Run-Test/Idle. */
  lemma {:induction false} NoBits(v: M.View, run: Run, repeat: byte, keep: bool, s: State) returns (way: seq<Event>)
    requires v.err == ERROR_NONE && run.job.bits == [] && InStep(s, v.line)
    requires run.es == v.line.events && run.from == v.line.at && run.tdi == v.line.tdi
    ensures var w, time := M.Shot(v, run, repeat, keep), run.job.time;
            && (time == 0 ==> w == v)
            && (time != 0 ==> w == v.(line := Line(v.line.events + way + [Wait(time)], RUNTEST, v.line.tdi))
                              && After(s, v.line.events + way) == RunTestIdle)
  {
    way := Goto(v.line.at, RUNTEST, v.line.tdi);
    NoMore(v.line.events);
    Assoc(v.line.events, way, [Wait(run.job.time)]);
    SoughtReaches(s, v.line, RUNTEST);
  }

  /** The pins have only waited, if at all, in Run-Test/Idle. */
  ghost predicate Waited(s: State, was: Line, now: Line, time: nat, way: seq<Event>)
  {
    if time == 0 then now == was
    else now == Line(was.events + way + [Wait(time)], RUNTEST, was.tdi) && After(s, was.events + way) == RunTestIdle
  }

  /** So a data register command without any bits waits if it is one that waits, and forgets the length of the last
      expected value if it is one that reads one. */
  lemma {:induction false} DataNoBits(data: seq<byte>, tdo: seq<Event> -> bool, v: M.View, c: byte, s: State)
      returns (way: seq<Event>)
    requires Before(data, v, c) && M.IsData(c) && v.bits == 0 && InStep(s, v.line)
    ensures var w := M.Turn(data, tdo, v);
            && Waited(s, v.line, w.line, if c == XSDR || c == XSDRTDO then v.time else 0, way)
            && w == v.(pos := v.pos + 1, line := w.line,
                       expectedLen := if c == XSDRTDO || c >= XSDRTDOB then 0 else v.expectedLen)
  {
    TurnIs(data, tdo, v, c);
    if c == XSDR { way := SdrNoBits(data, tdo, v.(pos := v.pos + 1), s); }
    else if c == XSDRTDO { way := SdrTdoNoBits(data, tdo, v.(pos := v.pos + 1), s); }
    else if c <= XSDRE { way := PartNoBits(data, tdo, v.(pos := v.pos + 1), c == XSDRE, s); }
    else { way := TdoPartNoBits(data, tdo, v.(pos := v.pos + 1), c == XSDRTDOE, s); }
  }

  lemma {:induction false} SdrNoBits(data: seq<byte>, tdo: seq<Event> -> bool, v: M.View, s: State)
      returns (way: seq<Event>)
    requires v.bits == 0 && v.err == ERROR_NONE && InStep(s, v.line)
    ensures var w := M.Sdr(data, tdo, v);
            Waited(s, v.line, w.line, v.time, way) && w == v.(line := w.line)
  {
    way := EmptyData(tdo, M.Past(v), Some(M.Goal(M.Past(v), v.mask)), v.endDR, v.time, v.repeat, s);
  }

  lemma {:induction false} SdrTdoNoBits(data: seq<byte>, tdo: seq<Event> -> bool, v: M.View, s: State)
      returns (way: seq<Event>)
    requires v.bits == 0 && v.err == ERROR_NONE && InStep(s, v.line)
    ensures var w := M.SdrTdo(data, tdo, v);
            Waited(s, v.line, w.line, v.time, way) && w == v.(line := w.line, expectedLen := 0)
  {
    NoMore(v.expected);
    var u := M.Expecting(data, v);
    way := EmptyData(tdo, u, Some(M.Goal(u, u.mask)), v.endDR, v.time, v.repeat, s);
  }

  lemma {:induction false} PartNoBits(data: seq<byte>, tdo: seq<Event> -> bool, v: M.View, last: bool, s: State)
      returns (way: seq<Event>)
    requires v.bits == 0 && v.err == ERROR_NONE && InStep(s, v.line)
    ensures var w := M.Part(data, tdo, v, last);
            Waited(s, v.line, w.line, 0, way) && w == v.(line := w.line)
  {
    way := EmptyData(tdo, M.Past(v), None, if last then v.endDR else SHIFTDR, 0, 0, s);
  }

  lemma {:induction false} TdoPartNoBits(data: seq<byte>, tdo: seq<Event> -> bool, v: M.View, last: bool, s: State)
      returns (way: seq<Event>)
    requires v.bits == 0 && v.err == ERROR_NONE && InStep(s, v.line)
    ensures var w := M.TdoPart(data, tdo, v, last);
            Waited(s, v.line, w.line, 0, way) && w == v.(line := w.line, expectedLen := 0)
  {
    NoMore(v.expected);
    var u := M.Expecting(data, v);
    way := EmptyData(tdo, u, Some(M.Goal(u, MaskBytes(null))), if last then v.endDR else SHIFTDR, 0, 0, s);
  }

  lemma {:induction false} EmptyData(tdo: seq<Event> -> bool, u: M.View, goal: Option<Expect>, end: Code, time: nat,
                                     repeat: byte, s: State) returns (way: seq<Event>)
    requires u.bits == 0 && u.err == ERROR_NONE && InStep(s, u.line)
    ensures var w := M.Data(tdo, u, [], goal, end, time, repeat);
            Waited(s, u.line, w.line, time, way) && w == u.(line := w.line)
  {
    way := NoBits(u, M.RunFrom(u.line, tdo, Job(SHIFTDR, end, LowBits([], u.bits), time), goal, []), repeat,
                  goal.Some?, s);
  }

  /** An instruction without any bits only waits. */
  lemma {:induction false} InstructionNoBits(data: seq<byte>, tdo: seq<Event> -> bool, v: M.View, c: byte, n: nat,
      s: State)
      returns (way: seq<Event>)
    requires Before(data, v, c) && InStep(s, v.line) && n == 0
    requires (c == XSIR && n == At(data, v.pos + 1)) ||
             (c == XSIR2 && n == 256 * At(data, v.pos + 1) + At(data, v.pos + 2))
    ensures var w := M.Turn(data, tdo, v);
            Waited(s, v.line, w.line, v.time, way) && w == v.(pos := v.pos + if c == XSIR then 2 else 3, line := w.line)
  {
    var p := v.pos + if c == XSIR then 2 else 3;
    TurnInstructs(data, tdo, v, c, n);
    var job := Job(SHIFTIR, v.endIR, LowBits(Taken(data, p, NumBytes(n)), n), v.time);
    way := NoBits(v.(pos := p), M.RunFrom(v.line, tdo, job, None, Taken(data, p, NumBytes(n))), 0, false, s);
  }

  // ----- whole streams -----

  /** The player after n commands. */
  ghost function Turns(data: seq<byte>, tdo: seq<Event> -> bool, v: M.View, n: nat): M.View
    decreases n, v.pos
  {
    if n == 0 then v else M.Turn(data, tdo, Turns(data, tdo, v, n - 1))
  }

  lemma {:induction false} TurnsFirst(data: seq<byte>, tdo: seq<Event> -> bool, v: M.View, n: nat)
    ensures Turns(data, tdo, v, n + 1) == Turns(data, tdo, M.Turn(data, tdo, v), n)
  {
    if n > 0 { TurnsFirst(data, tdo, v, n - 1); }
  }

  lemma {:induction false} RanOn(data: seq<byte>, tdo: seq<Event> -> bool, v: M.View)
    requires !v.Stopped() && WellFormed(data, v.pos, v.Frame())
    ensures var w := M.Turn(data, tdo, v);
            && (w.Stopped() ==> M.Ran(data, tdo, v) == w)
            && (!w.Stopped() ==> M.Ran(data, tdo, v) == M.Ran(data, tdo, w) && v.pos < w.pos && v.pos < |data|
                                 && WellFormed(data, w.pos, w.Frame()))
  {
    M.TurnReads(data, tdo, v);
  }

  /** A well-formed stream is played command by command, up to the first one that stops the player. */
  lemma {:induction false} RanStops(data: seq<byte>, tdo: seq<Event> -> bool, v: M.View) returns (n: nat)
    requires !v.Stopped() && WellFormed(data, v.pos, v.Frame())
    ensures Turns(data, tdo, v, n) == M.Ran(data, tdo, v) && M.Ran(data, tdo, v).Stopped()
    ensures forall k: nat | k < n :: !Turns(data, tdo, v, k).Stopped()
    decreases |data| - v.pos, 1
  {
    RanOn(data, tdo, v);
    AllTurns(data, tdo, v);
    n := RanFrom(data, tdo, v, M.Turn(data, tdo, v));
  }

  lemma {:induction false} AllTurns(data: seq<byte>, tdo: seq<Event> -> bool, v: M.View)
    ensures forall k: nat :: Turns(data, tdo, v, k + 1) == Turns(data, tdo, M.Turn(data, tdo, v), k)
  {
    forall k: nat ensures Turns(data, tdo, v, k + 1) == Turns(data, tdo, M.Turn(data, tdo, v), k) {
      TurnsFirst(data, tdo, v, k);
    }
  }

  /** From the first turn on. */
  lemma {:induction false} RanFrom(data: seq<byte>, tdo: seq<Event> -> bool, v: M.View, w: M.View) returns (n: nat)
    requires !v.Stopped() && forall k: nat :: Turns(data, tdo, v, k + 1) == Turns(data, tdo, w, k)
    requires w.Stopped() ==> M.Ran(data, tdo, v) == w
    requires !w.Stopped() ==> M.Ran(data, tdo, v) == M.Ran(data, tdo, w) && v.pos < w.pos && v.pos < |data|
                              && WellFormed(data, w.pos, w.Frame())
    ensures Turns(data, tdo, v, n) == M.Ran(data, tdo, v) && M.Ran(data, tdo, v).Stopped()
    ensures forall k: nat | k < n :: !Turns(data, tdo, v, k).Stopped()
    decreases |data| - v.pos, 0
  {
    n := 1;
    if !w.Stopped() {
      n := RanStops(data, tdo, w);
      n := n + 1;
    }
    OneEarlier(data, tdo, v, w, n);
  }

  lemma {:induction false} OneEarlier(data: seq<byte>, tdo: seq<Event> -> bool, v: M.View, w: M.View, n: nat)
    requires n > 0 && !v.Stopped() && forall k: nat :: Turns(data, tdo, v, k + 1) == Turns(data, tdo, w, k)
    requires forall k: nat | k < n - 1 :: !Turns(data, tdo, w, k).Stopped()
    ensures forall k: nat | k < n :: !Turns(data, tdo, v, k).Stopped()
    ensures Turns(data, tdo, v, n) == Turns(data, tdo, w, n - 1)
  {
    forall k: nat | k < n ensures !Turns(data, tdo, v, k).Stopped() {
      if k > 0 { assert Turns(data, tdo, v, (k - 1) + 1) == Turns(data, tdo, w, k - 1); }
    }
    assert Turns(data, tdo, v, (n - 1) + 1) == Turns(data, tdo, w, n - 1);
  }

  /** Whatever state the controller was in, and whatever was set before, the player starts in step with it in
      reset, with shifts that end in Run-Test/Idle, no retries, no waits and no bits. */
  lemma {:induction false} ResetStarts(v: M.View, s: State)
    ensures var w := M.Reset(v);
            && w.line.at == RESET && InStep(s, w.line) && w.line.events[..|v.line.events|] == v.line.events
            && w.line.tdi == v.line.tdi && w.endIR == w.endDR == RUNTEST && w.repeat == 0 && w.time == 0 && w.bits == 0
            && w.err == ERROR_NONE && !w.complete
  {
    GotoReaches(After(s, v.line.events), RESET, RESET, v.line.tdi);
    AfterConcat(s, v.line.events, Goto(RESET, RESET, v.line.tdi));
  }
}
