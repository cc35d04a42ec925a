/** CtrDrvrRead of ctr/driver/ctrdrvr-pci.c against interrupts and its own timer: the client queue, the
    semaphore that counts its entries, and every interleaving of one reader, the interrupt handler
    and timer callbacks. */
module ClientRead {
  import opened ClientQueue
  import SemSpec

  /** Where the reader is: between calls; past the clearing of a queue that is off; with a timer
      started but its identity not yet stored; about to wait; waiting; woken; decided that the timer
      had not expired; cancelling the timer, to go on to take an entry or to give up; taking; or
      woken by a signal. */
  datatype Phase =
    | Idle | Emptied | Starting | Armed | Waiting(ticket: nat) | Woken | Decided
    | Cancelling(take: bool, had: bool) | Taking | Interrupted

  /** timer tells whether the client's Timer field is non-zero, timeout whether its Timeout field is.
      timers counts timers started and neither cancelled nor expired, and expiring the callbacks that
      have cleared Timer but not yet reset the semaphore. */
  datatype Client<T> = Client(log: Log<T>, sem: SemSpec.State, phase: Phase, timeout: bool, off: bool,
                              timer: bool, timers: nat, expiring: nat)

  datatype Step<T> =
    | Push(x: T)
    | Empty | CallTimeout(free: bool) | Store | Wait(signal: bool) | Resume(signal: bool) | Check | Zero
    | Cancel(raced: bool) | Take
    | Expire | Finish
    | SetTimeout(on: bool) | SetQueueFlag(on: bool) | GetOverflow

  /** A client just opened. */
  function Opened<T>(timeout: bool): Client<T>
  {
    Client(Fresh(), SemSpec.Init(0), Idle, timeout, false, false, 0, 0)
  }

  function DoPush<T>(c: Client<T>, x: T): Client<T>
  {
    c.(log := c.log.Push(x), sem := if c.log.size < QUEUE_SIZE then SemSpec.Many(c.sem, 1) else c.sem)
  }

  function DoEmpty<T>(c: Client<T>): Client<T>
  {
    if c.off then c.(log := Fresh(), sem := SemSpec.Cleared(c.sem), phase := Emptied) else c.(phase := Emptied)
  }

  /** The outcome of one section of swait. */
  function Settled<T>(c: Client<T>, sr: (SemSpec.State, SemSpec.Result), ticket: nat): Client<T>
  {
    c.(sem := sr.0, phase := if sr.1 == SemSpec.Got then Woken else if sr.1 == SemSpec.Asleep then Waiting(ticket)
                             else Interrupted)
  }

  function DoCancel<T>(c: Client<T>, raced: bool): Client<T>
    requires c.phase.Cancelling?
  {
    c.(phase := if c.phase.take then Taking else Idle,
       timers := if c.phase.had && !raced && c.timers > 0 then c.timers - 1 else c.timers)
  }

  /** The end of the read: an entry, or the error reported when there is none. */
  function DoTake<T>(c: Client<T>): Client<T>
  {
    c.(phase := Idle, log := if 0 < c.log.size <= |c.log.pushed| then c.log.Pop() else c.log)
  }

  /** One step; a step that is not enabled does nothing.  There may be no timer to be had, and a timer that
      is cancelled may already have fired. */
  function Next<T>(c: Client<T>, e: Step<T>): Client<T>
  {
    match e
    case Push(x) => DoPush(c, x)
    case Empty => if c.phase.Idle? then DoEmpty(c) else c
    case CallTimeout(free) =>
      if !c.phase.Emptied? then c
      else if !c.timeout then c.(phase := Armed)
      else if free then c.(phase := Starting, timers := c.timers + 1) else c.(phase := Idle, timer := false)
    case Store => if c.phase.Starting? then c.(phase := Armed, timer := true) else c
    case Wait(signal) =>
      if c.phase.Armed? then Settled(c, SemSpec.TakeDown(c.sem, SemSpec.Interruptible, signal, 0), |c.sem.kinds|) else c
    case Resume(signal) =>
      if c.phase.Waiting? then Settled(c, SemSpec.Wake(c.sem, c.phase.ticket, signal, 0), c.phase.ticket) else c
    case Check =>
      if !c.phase.Woken? then c
      else c.(phase := if !c.timeout then Taking else if c.timer then Decided else Idle)
    case Zero => if c.phase.Decided? || c.phase.Interrupted?
                 then c.(phase := Cancelling(c.phase.Decided?, c.timer), timer := false) else c
    case Cancel(raced) => if c.phase.Cancelling? then DoCancel(c, raced) else c
    case Take => if c.phase.Taking? then DoTake(c) else c
    case Expire => if c.timers > 0 then c.(timers := c.timers - 1, timer := false, expiring := c.expiring + 1) else c
    case Finish => if c.expiring > 0 then c.(expiring := c.expiring - 1, sem := SemSpec.Cleared(c.sem)) else c
    case SetTimeout(on) => c.(timeout := on)
    case SetQueueFlag(on) => c.(off := on)
    case GetOverflow => c.(log := c.log.Report())
  }

  function After<T>(c: Client<T>, es: seq<Step<T>>): Client<T>
  {
    if es == [] then c else Next(After(c, es[..|es| - 1]), es[|es| - 1])
  }

  // ----- what every step keeps -----

  /** The reader is the only one in the wait list, and only while it waits. */
  ghost predicate OneReader<T>(c: Client<T>)
  {
    if c.phase.Waiting? then
      && c.phase.ticket < |c.sem.kinds| && c.sem.kinds[c.phase.ticket] == SemSpec.Interruptible
      && ((c.sem.queue == [c.phase.ticket] && c.sem.up == {}) || (c.sem.queue == [] && c.sem.up == {c.phase.ticket}))
    else c.sem.queue == [] && c.sem.up == {}
  }

  /** The reader owns one of the entries: it got past a wait that was not ended by its timer. */
  predicate Entitled<T>(c: Client<T>)
  {
    match c.phase
    case Waiting(t) => t in c.sem.up && (c.timeout ==> c.timer)
    case Woken => c.timeout ==> c.timer
    case Decided => true
    case Cancelling(take, _) => take
    case Taking => true
    case _ => false
  }

  /** Tokens never outnumber entries. */
  ghost predicate Covered<T>(c: Client<T>)
  {
    c.sem.count + (if Entitled(c) then 1 else 0) <= c.log.size
  }

  ghost predicate TimerSound<T>(c: Client<T>)
  {
    && (c.expiring > 0 ==> !c.timer)
    && (!c.timeout ==> c.timers == 0 && c.expiring == 0)
  }

  ghost predicate Sane<T>(c: Client<T>)
  {
    c.log.Valid() && SemSpec.Inv(c.sem) && OneReader(c)
  }

  ghost predicate Inv<T>(c: Client<T>)
  {
    Sane(c) && Covered(c) && TimerSound(c)
  }

  lemma {:induction false} ManyOne(s: SemSpec.State)
    ensures SemSpec.Many(s, 1) == SemSpec.One(s)
  {
  }

  lemma {:induction false} PushSane<T>(c: Client<T>, x: T)
    requires Sane(c)
    ensures Sane(DoPush(c, x))
  {
    PushedValid(c.log, x);
    ManyOne(c.sem);
    SemSpec.OneKeeps(c.sem);
    if c.sem.queue != [] { assert c.sem.queue[1..] == []; }
  }

  lemma {:induction false} PushKeeps<T>(c: Client<T>, x: T)
    requires Inv(c)
    ensures Inv(DoPush(c, x))
  {
    PushSane(c, x);
    ManyOne(c.sem);
  }

  /** A reset leaves the reader out of the wait list. */
  lemma {:induction false} ClearedMeans(s: SemSpec.State)
    requires SemSpec.Inv(s) && |s.queue| <= 1
    ensures SemSpec.Inv(SemSpec.Cleared(s)) && SemSpec.Cleared(s).count == 0 && SemSpec.Cleared(s).queue == []
    ensures SemSpec.Cleared(s).kinds == s.kinds
    ensures SemSpec.Cleared(s).up == if s.queue == [] then s.up else s.up + {s.queue[0]}
  {
    SemSpec.NextKeeps(s, SemSpec.Reset);
    ManyOne(s);
    assert s.queue == [] ==> SemSpec.Many(s, 0) == s;
  }

  lemma {:induction false} EmptyKeeps<T>(c: Client<T>)
    requires Inv(c) && c.phase.Idle?
    ensures Inv(DoEmpty(c))
  {
  }

  lemma {:induction false} FinishKeeps<T>(c: Client<T>)
    requires Inv(c) && c.expiring > 0
    ensures Inv(c.(expiring := c.expiring - 1, sem := SemSpec.Cleared(c.sem)))
  {
    ClearedMeans(c.sem);
  }

  /** What the reader's wait does to the semaphore, on which nobody else waits. */
  lemma {:induction false} TakenDown(s: SemSpec.State, signal: bool)
    requires s.queue == []
    ensures SemSpec.TakeDown(s, SemSpec.Interruptible, signal, 0)
         == if s.count > 0 then (s.(count := s.count - 1), SemSpec.Got)
            else if signal then (s.(kinds := s.kinds + [SemSpec.Interruptible]), SemSpec.Aborted)
            else (s.(queue := [|s.kinds|], kinds := s.kinds + [SemSpec.Interruptible]), SemSpec.Asleep)
  {
    var t := |s.kinds|;
    assert s.queue + [t] == [t] && [t][1..] == [];
  }

  lemma {:induction false} WaitSane<T>(c: Client<T>, signal: bool)
    requires Sane(c) && c.phase.Armed?
    ensures Sane(Next(c, Wait(signal)))
  {
    TakenDown(c.sem, signal);
  }

  lemma {:induction false} WaitKeeps<T>(c: Client<T>, signal: bool)
    requires Inv(c) && c.phase.Armed?
    ensures Inv(Next(c, Wait(signal)))
  {
    WaitSane(c, signal);
    TakenDown(c.sem, signal);
  }

  lemma {:induction false} ResumeKeeps<T>(c: Client<T>, signal: bool)
    requires Inv(c) && c.phase.Waiting?
    ensures Inv(Next(c, Resume(signal)))
  {
  }

  lemma {:induction false} TakeKeeps<T>(c: Client<T>)
    requires Inv(c) && c.phase.Taking?
    ensures Inv(DoTake(c))
  {
  }

  /** The identity of a timer is stored while a callback is between its two statements. */
  predicate Overtakes<T>(c: Client<T>, e: Step<T>)
  {
    e.Store? && c.phase.Starting? && c.expiring > 0
  }

  /** Timeout is set to zero although a timer is running, a callback is between its two statements, or an
      expiry has ended a wait and the reader has not looked at Timer yet. */
  predicate Lifts<T>(c: Client<T>, e: Step<T>)
  {
    && e.SetTimeout? && !e.on
    && (c.timers > 0 || c.expiring > 0 || (c.timeout && !c.timer && PastWait(c)))
  }

  predicate PastWait<T>(c: Client<T>)
  {
    c.phase.Woken? || (c.phase.Waiting? && c.phase.ticket in c.sem.up)
  }

  /** The steps that a client with a timeout has to fear. */
  predicate Breaks<T>(c: Client<T>, e: Step<T>)
  {
    Overtakes(c, e) || Lifts(c, e)
  }

  /** The steps of the timer and those that only move the reader on. */
  lemma {:induction false} TimerKeeps<T>(c: Client<T>, e: Step<T>)
    requires Inv(c) && !Breaks(c, e) && (e.CallTimeout? || e.Store? || e.Zero? || e.Cancel? || e.Expire?)
    ensures Inv(Next(c, e))
  {
  }

  lemma {:induction false} SettingKeeps<T>(c: Client<T>, e: Step<T>)
    requires Inv(c) && !Breaks(c, e) && (e.Check? || e.SetTimeout? || e.SetQueueFlag? || e.GetOverflow?)
    ensures Inv(Next(c, e))
  {
  }

  /** Every other step keeps the tokens covered. */
  lemma {:induction false} NextKeeps<T>(c: Client<T>, e: Step<T>)
    requires Inv(c) && !Breaks(c, e)
    ensures Inv(Next(c, e))
  {
    match e
    case Push(x) => PushKeeps(c, x);
    case Empty => if c.phase.Idle? { EmptyKeeps(c); }
    case Wait(signal) => if c.phase.Armed? { WaitKeeps(c, signal); }
    case Resume(signal) => if c.phase.Waiting? { ResumeKeeps(c, signal); }
    case Take => if c.phase.Taking? { TakeKeeps(c); }
    case Finish => if c.expiring > 0 { FinishKeeps(c); }
    case CallTimeout(_) => TimerKeeps(c, e);
    case Store => TimerKeeps(c, e);
    case Zero => TimerKeeps(c, e);
    case Cancel(_) => TimerKeeps(c, e);
    case Expire => TimerKeeps(c, e);
    case _ => SettingKeeps(c, e);
  }

  /** No step of a run breaks that. */
  ghost predicate Orderly<T>(c: Client<T>, es: seq<Step<T>>)
  {
    forall k: nat | k < |es| :: !Breaks(After(c, es[..k]), es[k])
  }

  lemma {:induction false} OrderlyPrefix<T>(c: Client<T>, es: seq<Step<T>>)
    requires es != [] && Orderly(c, es)
    ensures Orderly(c, es[..|es| - 1]) && !Breaks(After(c, es[..|es| - 1]), es[|es| - 1])
  {
    var init := es[..|es| - 1];
    forall k: nat | k < |init| ensures !Breaks(After(c, init[..k]), init[k]) {
      assert init[..k] == es[..k] && init[k] == es[k];
    }
  }

  lemma {:induction false} AfterKeeps<T>(c: Client<T>, es: seq<Step<T>>)
    requires Inv(c) && Orderly(c, es)
    ensures Inv(After(c, es))
  {
    if es != [] {
      OrderlyPrefix(c, es);
      AfterKeeps(c, es[..|es| - 1]);
      NextKeeps(After(c, es[..|es| - 1]), es[|es| - 1]);
    }
  }

  // ----- clearing at the start of a read -----

  /** The queue, the count of missed events and the semaphore are empty. */
  ghost predicate Blank<T>(l: Log<T>, s: SemSpec.State)
  {
    l.Valid() && l.Contents() == [] && l.Missed() == 0 && s.count == 0 && s.queue == []
  }

  lemma {:induction false} FreshBlank<T>(s: SemSpec.State)
    requires s.count == 0 && s.queue == []
    ensures Blank<T>(Fresh(), s)
  {
  }

  /** A read starts by emptying them if queueing is off; otherwise it leaves them alone. */
  lemma {:induction false} EmptyMeans<T>(c: Client<T>, w: Client<T>)
    requires Sane(c) && c.phase.Idle? && w == Next(c, Empty)
    ensures w == c.(phase := Emptied, log := w.log, sem := w.sem)
    ensures if c.off then Blank(w.log, w.sem) else w.log == c.log && w.sem == c.sem
  {
    if c.off {
      ClearedMeans(c.sem);
      FreshBlank<T>(w.sem);
    }
  }

  /** Which of the two is decided by the last setting of the queue flag. */
  lemma {:induction false} FlagDecides<T>(c: Client<T>, on: bool, es: seq<Step<T>>)
    requires forall i | 0 <= i < |es| :: !es[i].SetQueueFlag?
    ensures After(Next(c, SetQueueFlag(on)), es).off == on
  {
    if es != [] {
      FlagDecides(c, on, es[..|es| - 1]);
      FlagStays(After(Next(c, SetQueueFlag(on)), es[..|es| - 1]), es[|es| - 1]);
    }
  }

  lemma {:induction false} FlagStays<T>(c: Client<T>, e: Step<T>)
    requires !e.SetQueueFlag?
    ensures Next(c, e).off == c.off
  {
  }

  // ----- a read that was not timed out finds an entry -----

  /** A read that has decided it was woken by an event, and finds no entry. */
  predicate Starved<T>(c: Client<T>)
  {
    c.phase.Taking? && c.log.size == 0
  }

  /** In every run in which no store overtakes an expiry and Timeout is not set to zero on a running timer or
      an expiry not yet noticed, a read whose timer had not expired takes the oldest surviving event. */
  lemma {:induction false} NeverStarved<T>(timeout: bool, es: seq<Step<T>>)
    requires Orderly(Opened(timeout), es)
    ensures var c := After(Opened(timeout), es);
            && !Starved(c) && c.sem.count <= c.log.size && c.log.Valid()
            && (c.phase.Taking? ==> Next(c, Take).log == c.log.Pop())
  {
    AfterKeeps(Opened(timeout), es);
  }

  /** The client's Timeout field is not changed. */
  ghost predicate Fixed<T>(es: seq<Step<T>>)
  {
    forall k: nat | k < |es| :: !es[k].SetTimeout?
  }

  lemma {:induction false} UntimedStep<T>(c: Client<T>, e: Step<T>)
    requires Inv(c) && !c.timeout && !e.SetTimeout?
    ensures !Breaks(c, e) && !Disturbs(c, e) && Inv(Next(c, e)) && !Next(c, e).timeout
  {
    NextKeeps(c, e);
  }

  /** Without a timeout there is no timer to overtake or to expire. */
  lemma {:induction false} Untimed<T>(es: seq<Step<T>>)
    requires Fixed(es)
    ensures Inv(After(Opened(false), es)) && !After(Opened(false), es).timeout
  {
    if es != [] {
      Untimed(es[..|es| - 1]);
      UntimedStep(After(Opened(false), es[..|es| - 1]), es[|es| - 1]);
    }
  }

  lemma {:induction false} UntimedRun<T>(es: seq<Step<T>>)
    requires Fixed(es)
    ensures Orderly(Opened(false), es) && Calm(Opened(false), es)
  {
    forall k: nat | k < |es|
      ensures !Breaks(After(Opened(false), es[..k]), es[k]) && !Disturbs(After(Opened(false), es[..k]), es[k])
    {
      Untimed(es[..k]);
      UntimedStep(After(Opened(false), es[..k]), es[k]);
    }
  }

  /** A client with a fixed Timeout can get into this state. */
  ghost predicate Reachable<T(!new)>(timeout: bool, c: Client<T>)
  {
    exists es: seq<Step<T>> :: Fixed(es) && After(Opened(timeout), es) == c
  }

  lemma {:induction false} Extend<T(!new)>(timeout: bool, c: Client<T>, e: Step<T>)
    requires Reachable(timeout, c) && !e.SetTimeout?
    ensures Reachable(timeout, Next(c, e))
  {
    var es: seq<Step<T>> :| Fixed(es) && After(Opened(timeout), es) == c;
    OneStepMore(Opened(timeout), es, e);
  }

  lemma {:induction false} OneStepMore<T>(c: Client<T>, es: seq<Step<T>>, e: Step<T>)
    ensures After(c, es + [e]) == Next(After(c, es), e)
    ensures Fixed(es) && !e.SetTimeout? ==> Fixed(es + [e])
  {
    assert (es + [e])[..|es|] == es;
  }

  lemma {:induction false} ReachableStart<T(!new)>(timeout: bool)
    ensures Reachable(timeout, Opened<T>(timeout))
  {
    var es: seq<Step<T>> := [];
    assert Fixed(es) && After(Opened(timeout), es) == Opened(timeout);
  }

  /** The timer expires after it is started; its identity is stored after the callback has cleared the
      field. */
  lemma {:induction false} TimerOvertaken<T(!new)>(timeout: bool)
    requires timeout
    ensures Reachable(timeout, Opened<T>(timeout).(phase := Armed, timer := true, expiring := 1))
  {
    ReachableStart<T>(timeout);
    var c0 := Opened<T>(timeout);
    Extend(timeout, c0, Empty);
    var c1 := c0.(phase := Emptied);
    Extend(timeout, c1, CallTimeout(true));
    var c2 := c1.(phase := Starting, timers := 1);
    Extend(timeout, c2, Expire);
    var c3 := c2.(timers := 0, expiring := 1);
    Extend(timeout, c3, Store);
  }

  /** Then the callback's reset ends the wait. */
  lemma {:induction false} WaitEnded<T(!new)>(timeout: bool)
    requires timeout
    ensures Reachable(timeout, Opened<T>(timeout).(phase := Woken, timer := true,
                                                   sem := SemSpec.State(0, [], {}, [SemSpec.Interruptible])))
  {
    TimerOvertaken<T>(timeout);
    var c0 := Opened<T>(timeout).(phase := Armed, timer := true, expiring := 1);
    var c1 := c0.(phase := Waiting(0), sem := SemSpec.State(0, [0], {}, [SemSpec.Interruptible]));
    Extend(timeout, c0, Wait(false));
    var c2 := c1.(expiring := 0, sem := SemSpec.State(0, [], {0}, [SemSpec.Interruptible]));
    ManyOne(c1.sem);
    assert c1.sem.queue[1..] == [] && {} + {0} == {0};
    Extend(timeout, c1, Finish);
    Extend(timeout, c2, Resume(false));
  }

  /** And the reader, finding its timer armed, goes on to an empty queue. */
  lemma {:induction false} Overtaken<T(!new)>(timeout: bool) returns (es: seq<Step<T>>)
    requires timeout
    ensures Fixed(es) && Starved(After(Opened<T>(timeout), es))
  {
    WaitEnded<T>(timeout);
    var c0 := Opened<T>(timeout).(phase := Woken, timer := true,
        sem := SemSpec.State(0, [], {}, [SemSpec.Interruptible]));
    Extend(timeout, c0, Check);
    var c1 := c0.(phase := Decided);
    Extend(timeout, c1, Zero);
    var c2 := c1.(phase := Cancelling(true, true), timer := false);
    Extend(timeout, c2, Cancel(true));
    var c3 := c2.(phase := Taking);
    es :| Fixed(es) && After(Opened(timeout), es) == c3;
  }

  /** A run without steps of a certain kind leads to this state. */
  ghost predicate Leads<T(!new)>(timeout: bool, kind: (Client<T>, Step<T>) -> bool, es: seq<Step<T>>, c: Client<T>)
  {
    After(Opened(timeout), es) == c && forall k: nat | k < |es| :: !kind(After(Opened(timeout), es[..k]), es[k])
  }

  lemma {:induction false} Lead<T(!new)>(timeout: bool, kind: (Client<T>, Step<T>) -> bool, es: seq<Step<T>>,
                                         c: Client<T>, e: Step<T>) returns (es': seq<Step<T>>)
    requires Leads(timeout, kind, es, c) && !kind(c, e)
    ensures Leads(timeout, kind, es', Next(c, e))
  {
    es' := es + [e];
    assert es'[..|es|] == es;
    forall k: nat | k < |es'| ensures !kind(After(Opened(timeout), es'[..k]), es'[k]) {
      if k < |es| { assert es'[..k] == es[..k]; }
    }
  }

  /** The semaphore of a client whose reader has waited n times. */
  function Rested(n: nat): SemSpec.State
    decreases n
  {
    SemSpec.State(0, [], {}, if n == 0 then [] else Rested(n - 1).kinds + [SemSpec.Interruptible])
  }

  lemma {:induction false} RestedKinds(n: nat)
    ensures |Rested(n).kinds| == n && Rested(n + 1).kinds == Rested(n).kinds + [SemSpec.Interruptible]
  {
    if n > 0 { RestedKinds(n - 1); }
  }

  /** A timed read starts. */
  lemma {:induction false} TimerStarts<T(!new)>() returns (es: seq<Step<T>>)
    ensures Leads(true, Overtakes, es, Opened<T>(true).(phase := Armed, timer := true, timers := 1))
  {
    var c0 := Opened<T>(true);
    es := Lead(true, Overtakes, [], c0, Empty);
    var c1 := c0.(phase := Emptied);
    es := Lead(true, Overtakes, es, c1, CallTimeout(true));
    var c2 := c1.(phase := Starting, timers := 1);
    es := Lead(true, Overtakes, es, c2, Store);
  }

  /** A signal ends its wait. */
  lemma {:induction false} SignalCame<T(!new)>() returns (es: seq<Step<T>>)
    ensures Leads(true, Overtakes, es,
                  Opened<T>(true).(phase := Interrupted, timer := true, timers := 1, sem := Rested(1)))
  {
    es := TimerStarts<T>();
    var c := Opened<T>(true).(phase := Armed, timer := true, timers := 1);
    TakenDown(c.sem, true);
    assert Next(c, Wait(true)) == c.(phase := Interrupted, sem := Rested(1));
    es := Lead(true, Overtakes, es, c, Wait(true));
  }

  /** The timer expires before it is cancelled. */
  lemma {:induction false} TimerFires<T(!new)>() returns (es: seq<Step<T>>)
    ensures Leads(true, Overtakes, es, Opened<T>(true).(phase := Interrupted, sem := Rested(1), expiring := 1))
  {
    es := SignalCame<T>();
    var c := Opened<T>(true).(phase := Interrupted, timer := true, timers := 1, sem := Rested(1));
    es := Lead(true, Overtakes, es, c, Expire);
  }

  /** And the callback has not come to its reset when the read returns. */
  lemma {:induction false} ExpiryLeft<T(!new)>() returns (es: seq<Step<T>>)
    ensures Leads(true, Overtakes, es, Opened<T>(true).(sem := Rested(1), expiring := 1))
  {
    es := TimerFires<T>();
    var c1 := Opened<T>(true).(phase := Interrupted, sem := Rested(1), expiring := 1);
    es := Lead(true, Overtakes, es, c1, Zero);
    var c2 := c1.(phase := Cancelling(false, false));
    es := Lead(true, Overtakes, es, c2, Cancel(false));
  }

  /** Now Timeout is set to zero, and the next read starts. */
  lemma {:induction false} UntimedStarts<T(!new)>() returns (es: seq<Step<T>>)
    ensures Leads(true, Overtakes, es, Opened<T>(false).(phase := Armed, sem := Rested(1), expiring := 1))
  {
    es := ExpiryLeft();
    var c0 := Opened<T>(true).(sem := Rested(1), expiring := 1);
    es := Lead(true, Overtakes, es, c0, SetTimeout(false));
    var c1 := c0.(timeout := false);
    es := Lead(true, Overtakes, es, c1, Empty);
    var c2 := c1.(phase := Emptied);
    es := Lead(true, Overtakes, es, c2, CallTimeout(true));
  }

  /** The callback's reset ends its wait. */
  lemma {:induction false} UntimedWoken<T(!new)>() returns (es: seq<Step<T>>)
    ensures Leads(true, Overtakes, es, Opened<T>(false).(phase := Waiting(1), sem := Rested(2).(up := {1})))
  {
    es := UntimedStarts();
    var c0 := Opened<T>(false).(phase := Armed, sem := Rested(1), expiring := 1);
    var c1 := c0.(phase := Waiting(1), sem := Rested(2).(queue := [1]));
    TakenDown(c0.sem, false);
    RestedKinds(1);
    assert Next(c0, Wait(false)) == c1;
    es := Lead(true, Overtakes, es, c0, Wait(false));
    ManyOne(c1.sem);
    assert c1.sem.queue[1..] == [];
    assert Next(c1, Finish) == c1.(expiring := 0, sem := Rested(2).(up := {1}));
    es := Lead(true, Overtakes, es, c1, Finish);
  }

  /** And the reader goes on to an empty queue.  No store overtakes an expiry in this run, and Timeout
      changes between two reads. */
  lemma {:induction false} Lifted<T(!new)>() returns (es: seq<Step<T>>, c: Client<T>)
    ensures Leads(true, Overtakes, es, c) && Starved(c)
  {
    es := UntimedWoken();
    var c0 := Opened<T>(false).(phase := Waiting(1), sem := Rested(2).(up := {1}));
    var c1 := c0.(phase := Woken, sem := Rested(2));
    assert Next(c0, Resume(false)) == c1;
    es := Lead(true, Overtakes, es, c0, Resume(false));
    es := Lead(true, Overtakes, es, c1, Check);
    c := c1.(phase := Taking);
  }

  /** No run of a client with this Timeout ends in a read without an entry. */
  ghost predicate AlwaysFed<T(!new)>(timeout: bool)
  {
    forall es: seq<Step<T>> | Fixed(es) :: !Starved(After(Opened(timeout), es))
  }

  /** A read can go without an entry exactly if the client uses a timeout. */
  lemma {:induction false} StarvationIff<T(!new)>(timeout: bool)
    ensures AlwaysFed<T>(timeout) <==> !timeout
  {
    if timeout {
      var es := Overtaken<T>(timeout);
      assert Fixed(es) && Starved(After(Opened<T>(timeout), es));
    } else {
      forall es: seq<Step<T>> | Fixed(es) ensures !Starved(After(Opened(timeout), es)) {
        UntimedRun(es);
        NeverStarved(timeout, es);
      }
    }
  }

  // ----- a reader that sleeps on a queue with entries -----

  /** The reader is in the wait list although there is something to read. */
  predicate Oversleeps<T>(c: Client<T>)
  {
    c.phase.Waiting? && c.phase.ticket in c.sem.queue && c.log.size > 0
  }

  /** A timer callback starts. */
  predicate Expires<T>(c: Client<T>, e: Step<T>)
  {
    e.Expire? && c.timers > 0
  }

  /** Timeout is set while a read that started no timer is under way. */
  predicate Imposes<T>(c: Client<T>, e: Step<T>)
  {
    e.SetTimeout? && e.on && !c.timer && (c.phase.Armed? || c.phase.Waiting? || c.phase.Woken?)
  }

  predicate Disturbs<T>(c: Client<T>, e: Step<T>)
  {
    Expires(c, e) || Imposes(c, e)
  }

  /** Without such steps, tokens match entries exactly. */
  ghost predicate Exact<T>(c: Client<T>)
  {
    && Sane(c) && c.expiring == 0
    && (c.timeout && (c.phase.Armed? || c.phase.Waiting? || c.phase.Woken?) ==> c.timer)
    && c.sem.count + (if Entitled(c) then 1 else 0) == c.log.size
  }

  lemma {:induction false} WaitExact<T>(c: Client<T>, signal: bool)
    requires Exact(c) && c.phase.Armed?
    ensures Exact(Next(c, Wait(signal)))
  {
    WaitSane(c, signal);
    TakenDown(c.sem, signal);
  }

  lemma {:induction false} ResumeExact<T>(c: Client<T>, signal: bool)
    requires Exact(c) && c.phase.Waiting?
    ensures Exact(Next(c, Resume(signal)))
  {
  }

  lemma {:induction false} PushExact<T>(c: Client<T>, x: T)
    requires Exact(c)
    ensures Exact(DoPush(c, x))
  {
    PushSane(c, x);
    ManyOne(c.sem);
  }

  lemma {:induction false} ExactKeeps<T>(c: Client<T>, e: Step<T>)
    requires Exact(c) && !Disturbs(c, e)
    ensures Exact(Next(c, e))
  {
    if e.Push? { PushExact(c, e.x); }
    else if e.Wait? && c.phase.Armed? { WaitExact(c, e.signal); }
    else if e.Resume? && c.phase.Waiting? { ResumeExact(c, e.signal); }
    else if e.Empty? && c.phase.Idle? { EmptyExact(c); }
    else if e.Take? && c.phase.Taking? { TakeExact(c); }
    else { OtherExact(c, e); }
  }

  lemma {:induction false} EmptyExact<T>(c: Client<T>)
    requires Exact(c) && c.phase.Idle?
    ensures Exact(DoEmpty(c))
  {
    ClearedMeans(c.sem);
  }

  lemma {:induction false} TakeExact<T>(c: Client<T>)
    requires Exact(c) && c.phase.Taking?
    ensures Exact(DoTake(c))
  {
    PoppedValid(c.log);
  }

  lemma {:induction false} OtherExact<T>(c: Client<T>, e: Step<T>)
    requires Exact(c) && !Disturbs(c, e) && !e.Push?
    requires (e.Wait? ==> !c.phase.Armed?) && (e.Resume? ==> !c.phase.Waiting?)
    requires (e.Empty? ==> !c.phase.Idle?) && (e.Take? ==> !c.phase.Taking?)
    ensures Exact(Next(c, e))
  {
    OtherSane(c, e);
  }

  lemma {:induction false} OtherSane<T>(c: Client<T>, e: Step<T>)
    requires Sane(c) && c.expiring == 0 && !e.Push?
    requires (e.Wait? ==> !c.phase.Armed?) && (e.Resume? ==> !c.phase.Waiting?)
    requires (e.Empty? ==> !c.phase.Idle?) && (e.Take? ==> !c.phase.Taking?)
    ensures Sane(Next(c, e)) && Next(c, e).sem == c.sem && Next(c, e).log.size == c.log.size
  {
  }

  /** No timer expires in a run, and Timeout is not imposed on a read under way. */
  ghost predicate Calm<T>(c: Client<T>, es: seq<Step<T>>)
  {
    forall k: nat | k < |es| :: !Disturbs(After(c, es[..k]), es[k])
  }

  lemma {:induction false} AfterExact<T>(c: Client<T>, es: seq<Step<T>>)
    requires Exact(c) && Calm(c, es)
    ensures Exact(After(c, es))
  {
    if es != [] {
      var n := |es| - 1;
      var init := es[..n];
      forall k: nat | k < n ensures !Disturbs(After(c, init[..k]), init[k]) {
        assert init[..k] == es[..k] && init[k] == es[k];
      }
      AfterExact(c, init);
      ExactKeeps(After(c, init), es[n]);
    }
  }

  /** In every such run a reader sleeps only on an empty queue. */
  lemma {:induction false} WakesForEntries<T>(timeout: bool, es: seq<Step<T>>)
    requires Calm(Opened(timeout), es)
    ensures !Oversleeps(After(Opened(timeout), es))
  {
    AfterExact(Opened(timeout), es);
  }

  /** A timer that expires before the wait discards the tokens of events that came before it. */
  lemma {:induction false} Oversleeping<T(!new)>(timeout: bool, x: T) returns (es: seq<Step<T>>)
    requires timeout
    ensures Fixed(es) && Oversleeps(After(Opened(timeout), es))
  {
    ReachableStart<T>(timeout);
    var c0 := Opened<T>(timeout);
    Extend(timeout, c0, Empty);
    var c1 := c0.(phase := Emptied);
    Extend(timeout, c1, CallTimeout(true));
    var c2 := c1.(phase := Starting, timers := 1);
    Extend(timeout, c2, Store);
    var c3 := c2.(phase := Armed, timer := true);
    Extend(timeout, c3, Push(x));
    ManyOne(c3.sem);
    es := Discarded(timeout, x, c3.(log := Fresh().Push(x), sem := SemSpec.State(1, [], {}, [])));
  }

  lemma {:induction false} Discarded<T(!new)>(timeout: bool, x: T, c4: Client<T>) returns (es: seq<Step<T>>)
    requires timeout && Reachable(timeout, c4)
    requires c4 == Opened(timeout).(phase := Armed, timer := true, timers := 1, log := Fresh().Push(x),
                                    sem := SemSpec.State(1, [], {}, []))
    ensures Fixed(es) && Oversleeps(After(Opened(timeout), es))
  {
    Extend(timeout, c4, Expire);
    var c5 := c4.(timers := 0, timer := false, expiring := 1);
    Extend(timeout, c5, Finish);
    var c6 := c5.(expiring := 0, sem := SemSpec.State(0, [], {}, []));
    Extend(timeout, c6, Wait(false));
    var c7 := c6.(phase := Waiting(0), sem := SemSpec.State(0, [0], {}, [SemSpec.Interruptible]));
    es :| Fixed(es) && After(Opened(timeout), es) == c7;
  }

  /** An untimed read is asleep. */
  lemma {:induction false} UntimedSleeps<T(!new)>() returns (es: seq<Step<T>>)
    ensures Leads(false, Expires, es, Opened<T>(false).(phase := Waiting(0), sem := Rested(1).(queue := [0])))
  {
    var c0 := Opened<T>(false);
    es := Lead(false, Expires, [], c0, Empty);
    var c1 := c0.(phase := Emptied);
    es := Lead(false, Expires, es, c1, CallTimeout(true));
    var c2 := c1.(phase := Armed);
    TakenDown(c2.sem, false);
    RestedKinds(0);
    assert Next(c2, Wait(false)) == c2.(phase := Waiting(0), sem := Rested(1).(queue := [0]));
    es := Lead(false, Expires, es, c2, Wait(false));
  }

  /** Timeout is set, and an event wakes the reader. */
  lemma {:induction false} EventComes<T(!new)>(x: T) returns (es: seq<Step<T>>)
    ensures Leads(false, Expires, es, Opened(true).(phase := Waiting(0), log := Fresh().Push(x),
                                                    sem := Rested(1).(up := {0})))
  {
    es := UntimedSleeps<T>();
    var c0 := Opened<T>(false).(phase := Waiting(0), sem := Rested(1).(queue := [0]));
    es := Lead(false, Expires, es, c0, SetTimeout(true));
    var c1 := c0.(timeout := true);
    ManyOne(c1.sem);
    assert c1.sem.queue[1..] == [];
    assert Next(c1, Push(x)) == c1.(log := Fresh().Push(x), sem := Rested(1).(up := {0}));
    es := Lead(false, Expires, es, c1, Push(x));
  }

  /** The reader is told that its timer expired, so the event stays on the queue without a token. */
  lemma {:induction false} EntryLeft<T(!new)>(x: T) returns (es: seq<Step<T>>)
    ensures Leads(false, Expires, es, Opened(true).(log := Fresh().Push(x), sem := Rested(1)))
  {
    es := EventComes(x);
    var c0 := Opened(true).(phase := Waiting(0), log := Fresh().Push(x), sem := Rested(1).(up := {0}));
    var c1 := c0.(phase := Woken, sem := Rested(1));
    assert Next(c0, Resume(false)) == c1;
    es := Lead(false, Expires, es, c0, Resume(false));
    es := Lead(false, Expires, es, c1, Check);
  }

  /** And the next read sleeps on it.  No timer expires in this run. */
  lemma {:induction false} Imposed<T(!new)>(x: T) returns (es: seq<Step<T>>, c: Client<T>)
    ensures Leads(false, Expires, es, c) && Oversleeps(c)
  {
    es := EntryLeft(x);
    var c0 := Opened(true).(log := Fresh().Push(x), sem := Rested(1));
    es := Lead(false, Expires, es, c0, Empty);
    var c1 := c0.(phase := Emptied);
    es := Lead(false, Expires, es, c1, CallTimeout(true));
    var c2 := c1.(phase := Starting, timers := 1);
    es := Lead(false, Expires, es, c2, Store);
    var c3 := c2.(phase := Armed, timer := true);
    TakenDown(c3.sem, false);
    es := Lead(false, Expires, es, c3, Wait(false));
    c := Next(c3, Wait(false));
  }

  /** No run of a client with this Timeout leaves its reader asleep on a queue with entries. */
  ghost predicate AlwaysWoken<T(!new)>(timeout: bool)
  {
    forall es: seq<Step<T>> | Fixed(es) :: !Oversleeps(After(Opened(timeout), es))
  }

  /** A reader can sleep on a queue with entries exactly if the client uses a timeout. */
  lemma {:induction false} OversleepIff<T(!new)>(timeout: bool, x: T)
    ensures AlwaysWoken<T>(timeout) <==> !timeout
  {
    if timeout {
      var es := Oversleeping(timeout, x);
      assert Fixed(es) && Oversleeps(After(Opened<T>(timeout), es));
    } else {
      forall es: seq<Step<T>> | Fixed(es) ensures !Oversleeps(After(Opened(timeout), es)) {
        UntimedRun(es);
        WakesForEntries(timeout, es);
      }
    }
  }

  // ----- whole reads -----

  /** A read that gets as far as its wait; the timer, if there is a timeout, has been started and stored. */
  function Begun<T>(c: Client<T>, signal: bool): Client<T>
  {
    Next(Next(Next(Next(c, Empty), CallTimeout(true)), Store), Wait(signal))
  }

  /** From its waking up to its end. */
  function Ended<T>(c: Client<T>, raced: bool): Client<T>
  {
    Next(Next(Next(Next(c, Check), Zero), Cancel(raced)), Take)
  }

  /** Between calls, on a queue that is not cleared at reads. */
  ghost predicate Ready<T>(c: Client<T>)
  {
    Sane(c) && c.phase.Idle? && !c.off
  }

  lemma {:induction false} ArmedAt<T>(c: Client<T>)
    requires Ready(c)
    ensures Next(Next(Next(c, Empty), CallTimeout(true)), Store)
         == if c.timeout then c.(phase := Armed, timer := true, timers := c.timers + 1) else c.(phase := Armed)
  {
  }

  lemma {:induction false} BegunIs<T>(c: Client<T>, signal: bool)
    requires Ready(c)
    ensures var a := if c.timeout then c.(timer := true, timers := c.timers + 1) else c;
            Begun(c, signal) ==
            if c.sem.count > 0 then a.(phase := Woken, sem := c.sem.(count := c.sem.count - 1))
            else if signal then a.(phase := Interrupted, sem := c.sem.(kinds := c.sem.kinds + [SemSpec.Interruptible]))
            else a.(phase := Waiting(|c.sem.kinds|),
                    sem := c.sem.(queue := [|c.sem.kinds|], kinds := c.sem.kinds + [SemSpec.Interruptible]))
  {
    ArmedAt(c);
    TakenDown(c.sem, signal);
  }

  lemma {:induction false} EndedIs<T>(c: Client<T>, raced: bool)
    requires c.phase.Woken? && 0 < c.log.size <= |c.log.pushed| && (c.timeout ==> c.timer && c.timers > 0)
    ensures Ended(c, raced)
         == c.(phase := Idle, log := c.log.Pop(), timer := !c.timeout && c.timer,
               timers := if c.timeout && !raced then c.timers - 1 else c.timers)
  {
  }

  /** A read on a queue with a token takes the oldest event at once, and leaves no timer behind unless that has
      fired already. */
  lemma {:induction false} TakesAtOnce<T>(c: Client<T>, signal: bool, raced: bool)
    requires Ready(c) && c.sem.count > 0 && c.log.size > 0
    ensures Ended(Begun(c, signal), raced)
         == c.(log := c.log.Pop(), sem := c.sem.(count := c.sem.count - 1), timer := !c.timeout && c.timer,
               timers := if c.timeout && raced then c.timers + 1 else c.timers)
  {
    BegunIs(c, signal);
    EndedIs(Begun(c, signal), raced);
  }

  /** An event that comes while a read waits ends the wait, and the oldest event there is then is taken, even if a
      signal has come as well. */
  lemma {:induction false} TakesWhenWoken<T>(c: Client<T>, x: T, signal: bool, raced: bool)
    requires Ready(c) && c.sem.count == 0 && c.log.size < QUEUE_SIZE
    ensures var w := Ended(Next(Next(Begun(c, false), Push(x)), Resume(signal)), raced);
            && w == c.(log := c.log.Push(x).Pop(), sem := w.sem, timer := !c.timeout && c.timer,
                       timers := if c.timeout && raced then c.timers + 1 else c.timers)
            && w.sem == c.sem.(kinds := c.sem.kinds + [SemSpec.Interruptible])
  {
    BegunIs(c, false);
    var b, t := Begun(c, false), |c.sem.kinds|;
    ManyOne(b.sem);
    var p := Next(b, Push(x));
    assert b.sem.queue[1..] == [] && p.sem == b.sem.(queue := [], up := {t});
    var r := Next(p, Resume(signal));
    assert {t} - {t} == {};
    assert r == p.(phase := Woken, sem := p.sem.(up := {}));
    EndedIs(r, raced);
  }

  /** A read whose timer runs out takes nothing, and changes neither the queue nor the count of the semaphore. */
  lemma {:induction false} TakesNothing<T>(c: Client<T>, signal: bool)
    requires Ready(c) && c.sem.count == 0 && c.timeout && c.expiring == 0
    ensures var w := Next(Next(Next(Next(Begun(c, false), Expire), Finish), Resume(signal)), Check);
            w == c.(sem := c.sem.(kinds := c.sem.kinds + [SemSpec.Interruptible]), timer := false)
  {
    BegunIs(c, false);
    var b, t := Begun(c, false), |c.sem.kinds|;
    var f := Next(Next(b, Expire), Finish);
    ManyOne(b.sem);
    assert |b.sem.queue| == 1 && b.sem.queue[1..] == [];
    assert f.sem == b.sem.(queue := [], up := {t});
    assert {t} - {t} == {};
  }

  /** Nor does one with a timeout for which there is no timer, and it does not wait. */
  lemma {:induction false} NoTimer<T>(c: Client<T>)
    requires Ready(c) && c.timeout
    ensures Next(Next(c, Empty), CallTimeout(false)) == c.(timer := false)
  {
  }

  /** Nor does one that a signal ends, and it cancels its timer. */
  lemma {:induction false} GivesUp<T>(c: Client<T>, raced: bool)
    requires Ready(c) && c.sem.count == 0
    ensures var w := Next(Next(Begun(c, true), Zero), Cancel(raced));
            w == c.(sem := c.sem.(kinds := c.sem.kinds + [SemSpec.Interruptible]), timer := false,
                    timers := w.timers)
            && w.timers == if c.timeout then (if raced then c.timers + 1 else c.timers)
                           else if c.timer && !raced && c.timers > 0 then c.timers - 1 else c.timers
  {
    BegunIs(c, true);
  }
}
