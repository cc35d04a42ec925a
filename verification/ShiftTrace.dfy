/** What a device behind the port sees of one xsvfShift of jtag/micro.c: the controller states that the
    reference controller passes through, and the pauses. */
module ShiftTrace {
  import opened Bits
  import opened Tap
  import opened TapWalk
  import opened LenVals
  import opened Shifter

  /** The states after each of a run of events. */
  function Visited(s: State, es: seq<Event>): (ss: seq<State>)
    ensures |ss| == |es|
  {
    seq(|es|, i requires 0 <= i < |es| => After(s, es[..i + 1]))
  }

  ghost predicate OnlyClocks(es: seq<Event>)
  {
    forall i | 0 <= i < |es| :: es[i].Clock?
  }

  // ----- how long a retry waits -----

  /** A quarter more, rounded down, with every retry. */
  lemma {:induction false} GrowsByQuarter(time: nat, k: nat)
    ensures Grown(time, 0) == time
    ensures 4 * Grown(time, k + 1) <= 5 * Grown(time, k) < 4 * Grown(time, k + 1) + 4
  {
  }

  // ----- seeks are clocks only -----

  lemma {:induction false} SeekClocks(cur: Code, target: Code, tdi: bool)
    requires target != RESET && !Illegal(cur, target)
    ensures OnlyClocks(Seek(cur, target, tdi))
    decreases Turns(cur, target)
  {
    if cur != target {
      SeekUnfold(cur, target, tdi);
      TurnsDecrease(cur, target);
      SeekClocks(Turn(cur, target).1, target, tdi);
    }
  }

  lemma {:induction false} GotoClocks(cur: Code, target: Code, tdi: bool)
    requires target != RESET && target != EXIT2DR && target != EXIT2IR
    ensures OnlyClocks(Goto(cur, target, tdi))
  {
    if cur == target && IsPause(target) {
      SeekClocks(Exit2Of(target), target, tdi);
    } else {
      SeekClocks(cur, target, tdi);
    }
  }

  // ----- the detour of a retry -----

  /** The clocks of the detour, spelled out. */
  function Detour(tdi: bool): seq<Event>
  {
    [Clock(false, tdi), Clock(true, tdi), Clock(false, tdi), Clock(true, tdi), Clock(true, tdi), Clock(false, tdi)]
  }

  lemma {:induction false} SeekOne(cur: Code, target: Code, tdi: bool)
    requires target != RESET && !Illegal(cur, target) && cur != target && Turn(cur, target).1 == target
    ensures Seek(cur, target, tdi) == [Clock(Turn(cur, target).0, tdi)]
  {
    SeekUnfold(cur, target, tdi);
  }

  lemma {:induction false} ToPause(tdi: bool)
    ensures Goto(EXIT1DR, PAUSEDR, tdi) == [Clock(false, tdi)]
  {
    SeekOne(EXIT1DR, PAUSEDR, tdi);
  }

  lemma {:induction false} ToShift(tdi: bool)
    ensures Goto(PAUSEDR, SHIFTDR, tdi) == [Clock(true, tdi), Clock(false, tdi)]
  {
    SeekUnfold(PAUSEDR, SHIFTDR, tdi);
    SeekOne(EXIT2DR, SHIFTDR, tdi);
  }

  lemma {:induction false} ToIdle(tdi: bool)
    ensures Goto(SHIFTDR, RUNTEST, tdi) == [Clock(true, tdi), Clock(true, tdi), Clock(false, tdi)]
  {
    SeekUnfold(SHIFTDR, RUNTEST, tdi);
    SeekUnfold(EXIT1DR, RUNTEST, tdi);
    SeekOne(UPDATEDR, RUNTEST, tdi);
  }

  lemma {:induction false} TailIsDetour(job: Job, wait: nat)
    requires job.start == SHIFTDR && job.Exits()
    ensures job.Tail(true, wait) == Detour(job.LastBit()) + [Wait(wait)]
  {
    var b := job.LastBit();
    ToPause(b);
    ToShift(b);
    ToIdle(b);
  }

  lemma {:induction false} VisitedCons(s: State, e: Event, es: seq<Event>)
    ensures Visited(s, [e] + es) == [Step(s, e)] + Visited(Step(s, e), es)
  {
    var all, ss := [e] + es, [Step(s, e)] + Visited(Step(s, e), es);
    forall i | 0 <= i < |all| ensures Visited(s, all)[i] == ss[i] {
      assert all[..i + 1] == [e] + es[..i];
      AfterCons(s, e, es[..i]);
    }
  }

  lemma {:induction false} VisitedTwo(s: State, a: Event, b: Event, es: seq<Event>)
    ensures Visited(s, [a, b] + es) == [Step(s, a), Step(Step(s, a), b)] + Visited(Step(Step(s, a), b), es)
  {
    assert [a, b] + es == [a] + ([b] + es);
    VisitedCons(s, a, [b] + es);
    VisitedCons(Step(s, a), b, es);
  }

  lemma {:induction false} DetourVisits(b: bool, wait: nat)
    ensures Visited(Exit1DR, Detour(b) + [Wait(wait)])
         == [PauseDR, Exit2DR, ShiftDR, Exit1DR, UpdateDR, RunTestIdle, RunTestIdle]
  {
    var low, high, last := Clock(false, b), Clock(true, b), [Wait(wait)];
    assert Detour(b) + last == [low, high] + ([low, high] + ([high, low] + last));
    VisitedTwo(Exit1DR, low, high, [low, high] + ([high, low] + last));
    VisitedTwo(Exit2DR, low, high, [high, low] + last);
    VisitedTwo(Exit1DR, high, low, last);
    assert last == last + [] && Visited(RunTestIdle, []) == [];
    VisitedCons(RunTestIdle, Wait(wait), []);
  }

  // ----- attempts -----

  /** The events up to the end of the scan of attempt number k. */
  function Scanned(run: Run, k: nat): seq<Event>
  {
    run.Events(k, false) + (run.job.Lead(run.From(k), run.FromTdi(k)) + ScanClocks(run.job.bits, run.job.Exits()))
  }

  /** What follows it, up to the next attempt or the end. */
  ghost predicate Follows(run: Run, k: nat, final: bool, tail: seq<Event>)
  {
    run.Events(k + 1, final) == Scanned(run, k) + tail
  }

  lemma {:induction false} TailFollows(run: Run, k: nat, final: bool)
    ensures Follows(run, k, final, run.job.Tail(run.Retries(final), run.WaitOf(k, final)))
  {
    run.EventsStep(k, final);
    var lead, scan := run.job.Lead(run.From(k), run.FromTdi(k)), ScanClocks(run.job.bits, run.job.Exits());
    Assoc(run.Events(k, false), lead + scan, run.job.Tail(run.Retries(final), run.WaitOf(k, final)));
  }

  lemma {:induction false} OneTail(run: Run, k: nat, final: bool, tail: seq<Event>)
    requires Follows(run, k, final, tail)
    ensures tail == run.job.Tail(run.Retries(final), run.WaitOf(k, final))
  {
    TailFollows(run, k, final);
    SameRest(Scanned(run, k), tail, run.job.Tail(run.Retries(final), run.WaitOf(k, final)));
  }

  lemma {:induction false} SameRest<T>(a: seq<T>, b: seq<T>, c: seq<T>)
    requires a + b == a + c
    ensures b == c
  {
    assert (a + b)[|a|..] == b && (a + c)[|a|..] == c;
  }

  lemma {:induction false} ScanEnds(run: Run, s: State, k: nat)
    requires run.job.Valid() && After(s, run.es) == StateOf(run.from)
    ensures After(s, Scanned(run, k)) == StateOf(if run.job.Exits() then run.job.Exit1() else run.job.start)
  {
    RunReaches(run, s, k, false);
    AfterConcat(s, run.Events(k, false),
        run.job.Lead(run.From(k), run.FromTdi(k)) + ScanClocks(run.job.bits, run.job.Exits()));
    ScanReaches(run.job, StateOf(run.From(k)), run.From(k), run.FromTdi(k));
  }

  /** Just before bit i of attempt number k is clocked in, the controller is in the shift state, and TDO is read. */
  lemma {:induction false} BitRead(run: Run, s: State, k: nat, i: nat) returns (es: seq<Event>)
    requires run.job.Valid() && After(s, run.es) == StateOf(run.from) && i < |run.job.bits|
    ensures |es| + (|run.job.bits| - i) == |Scanned(run, k)| && es == Scanned(run, k)[..|es|]
    ensures Scanned(run, k)[|es|] == Clock(run.job.Exits() && i == |run.job.bits| - 1, run.job.bits[i])
    ensures After(s, es) == StateOf(run.job.start) && run.Reads(k)[i] == run.tdo(es)
  {
    var bits, exit, lead := run.job.bits, run.job.Exits(), run.job.Lead(run.From(k), run.FromTdi(k));
    var start := run.Events(k, false) + lead;
    es := start + ScanTo(bits, exit, i);
    SampledAt(run.tdo, start, bits, exit, |bits|, i);
    ScanSplits(start, bits, exit, i);
    Assoc(run.Events(k, false), lead, ScanClocks(bits, exit));
    LeadEnds(run, s, k);
    AfterConcat(s, start, ScanTo(bits, exit, i));
    ScanStays(StateOf(run.job.start), bits, exit, i);
  }

  lemma {:induction false} LeadEnds(run: Run, s: State, k: nat)
    requires run.job.Valid() && After(s, run.es) == StateOf(run.from)
    ensures After(s, run.Events(k, false) + run.job.Lead(run.From(k), run.FromTdi(k))) == StateOf(run.job.start)
  {
    RunReaches(run, s, k, false);
    AfterConcat(s, run.Events(k, false), run.job.Lead(run.From(k), run.FromTdi(k)));
    GotoReaches(StateOf(run.From(k)), run.From(k), run.job.start, run.FromTdi(k));
  }

  lemma {:induction false} ScanSplits(start: seq<Event>, bits: seq<bool>, exit: bool, i: nat)
    requires i < |bits|
    ensures var all, n := start + ScanClocks(bits, exit), |start| + i;
            all[..n] == start + ScanTo(bits, exit, i) && all[n] == Clock(exit && i == |bits| - 1, bits[i])
  {
    ScanToPrefix(bits, exit, |bits|, i);
    ScanToAt(bits, exit, |bits|, i);
  }

  /** An attempt on the data register that is retried after a wait leaves the scan in Exit1-DR and makes the
      detour: Pause-DR, Exit2-DR, one clock more in Shift-DR, and by Update-DR to Run-Test/Idle, where it waits
      a quarter longer than before. */
  lemma {:induction false} RetryDetours(run: Run, s: State, k: nat, tail: seq<Event>)
    requires run.job.Valid() && run.job.start == SHIFTDR && run.job.end != SHIFTDR && run.job.time != 0
    requires After(s, run.es) == StateOf(run.from) && Follows(run, k, false, tail)
    ensures After(s, Scanned(run, k)) == Exit1DR
    ensures Visited(Exit1DR, tail) == [PauseDR, Exit2DR, ShiftDR, Exit1DR, UpdateDR, RunTestIdle, RunTestIdle]
    ensures OnlyClocks(tail[..6]) && tail[6] == Wait(Grown(run.job.time, k + 1))
    ensures forall i | 0 <= i < 6 :: tail[i].tdi == run.job.bits[|run.job.bits| - 1]
  {
    ScanEnds(run, s, k);
    OneTail(run, k, false, tail);
    TailIsDetour(run.job, Grown(run.job.time, k + 1));
    DetourVisits(run.job.LastBit(), Grown(run.job.time, k + 1));
  }

  /** The last attempt of a shift that leaves the shift state goes to the end state asked for, and if there is a
      time to wait, on from there to Run-Test/Idle, where it waits as long as the last retry did; otherwise it
      stops there. */
  lemma {:induction false} FinalVisits(run: Run, s: State, k: nat, tail: seq<Event>) returns (i: nat)
    requires run.job.Valid() && run.job.Exits() && After(s, run.es) == StateOf(run.from) && Follows(run, k, true, tail)
    ensures i <= |tail| && OnlyClocks(tail[..i]) && After(s, Scanned(run, k) + tail[..i]) == StateOf(run.job.end)
    ensures run.job.time == 0 ==> i == |tail|
    ensures run.job.time != 0 ==>
              && i < |tail| && OnlyClocks(tail[..|tail| - 1]) && tail[|tail| - 1] == Wait(Grown(run.job.time, k))
              && After(s, Scanned(run, k) + tail) == RunTestIdle
  {
    ScanEnds(run, s, k);
    OneTail(run, k, true, tail);
    i := ExitVisits(run.job, Grown(run.job.time, k), tail);
    AfterConcat(s, Scanned(run, k), tail[..i]);
    AfterConcat(s, Scanned(run, k), tail);
  }

  lemma {:induction false} ExitVisits(job: Job, wait: nat, tail: seq<Event>) returns (i: nat)
    requires job.Valid() && job.Exits() && tail == job.Tail(false, wait)
    ensures i <= |tail| && OnlyClocks(tail[..i]) && After(StateOf(job.Exit1()), tail[..i]) == StateOf(job.end)
    ensures job.time == 0 ==> i == |tail|
    ensures job.time != 0 ==>
              && i < |tail| && OnlyClocks(tail[..|tail| - 1]) && tail[|tail| - 1] == Wait(wait)
              && After(StateOf(job.Exit1()), tail) == RunTestIdle
  {
    var b := job.LastBit();
    var first := Goto(job.Exit1(), job.end, b);
    i := |first|;
    GotoClocks(job.Exit1(), job.end, b);
    GotoReaches(StateOf(job.Exit1()), job.Exit1(), job.end, b);
    if job.time != 0 {
      GotoClocks(job.end, RUNTEST, b);
      WaitLast(first, Goto(job.end, RUNTEST, b), wait, tail);
      TailReaches(job, false, wait);
      FirstOf(first, Pause(job.end, wait, b), tail);
    } else {
      NoMore(first);
      FirstOf(first, [], tail);
    }
  }

  lemma {:induction false} FirstOf<T>(a: seq<T>, b: seq<T>, all: seq<T>)
    requires all == a + b
    ensures |a| <= |all| && all[..|a|] == a
  {
  }

  lemma {:induction false} WaitLast(a: seq<Event>, b: seq<Event>, wait: nat, all: seq<Event>)
    requires all == a + (b + [Wait(wait)]) && OnlyClocks(a) && OnlyClocks(b)
    ensures |a| < |all| && OnlyClocks(all[..|all| - 1]) && all[|all| - 1] == Wait(wait)
  {
    assert all[..|all| - 1] == a + b;
  }

  /** An attempt that stays in the shift state sends nothing after its scan. */
  lemma {:induction false} StaysPut(run: Run, k: nat, final: bool, tail: seq<Event>)
    requires !run.job.Exits() && Follows(run, k, final, tail)
    ensures tail == []
  {
    OneTail(run, k, final, tail);
  }
}
