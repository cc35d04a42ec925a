/** What the semaphore of ctr/driver/cdcmSem.c and cdcm/cdcmTime.c promises: one step for every
    section of the code that runs under the semaphore's lock, and laws about all runs of steps.
    Scheduling, signals and timeouts are arbitrary.  A task that has to wait gets a ticket, the
    number of its arrival. */
module SemSpec {

  /** How a task waits: cdcm_down, cdcm_down_interruptible, cdcm_down_timeout. */
  datatype Kind = Plain | Interruptible | Timed

  /** What a step tells the task that made it; a sleeping task has left the lock but not returned. */
  datatype Result = Got | Missed | Asleep | TimedOut | Aborted

  /** The count, the tickets in the wait list, the waiters marked up that have not yet returned,
      and how each waiter waits. */
  datatype State = State(count: nat, queue: seq<nat>, up: set<nat>, kinds: seq<Kind>)

  datatype Step =
    | Down(kind: Kind, signal: bool, jiffies: int)
    | Trylock
    | Up(n: nat)
    | Reset
    | Resume(ticket: nat, signal: bool, jiffies: int)

  function Init(count: nat): State
  {
    State(count, [], {}, [])
  }

  /** A wait list without one entry. */
  function Without(q: seq<nat>, t: nat): seq<nat>
  {
    if q == [] then [] else if q[0] == t then q[1..] else [q[0]] + Without(q[1..], t)
  }

  /** The head of the wait loop: a signal is looked at before the time left. */
  function Settle(s: State, t: nat, kind: Kind, signal: bool, jiffies: int): (State, Result)
  {
    if kind.Interruptible? && signal then (s.(queue := Without(s.queue, t)), Aborted)
    else if kind.Timed? && jiffies <= 0 then (s.(queue := Without(s.queue, t)), TimedOut)
    else (s, Asleep)
  }

  function TakeDown(s: State, kind: Kind, signal: bool, jiffies: int): (State, Result)
  {
    if s.count > 0 then (s.(count := s.count - 1), Got)
    else Settle(s.(queue := s.queue + [|s.kinds|], kinds := s.kinds + [kind]), |s.kinds|, kind, signal, jiffies)
  }

  /** One up: the first waiter is marked, or the count grows. */
  function One(s: State): State
  {
    if s.queue == [] then s.(count := s.count + 1) else s.(queue := s.queue[1..], up := s.up + {s.queue[0]})
  }

  function Many(s: State, n: nat): State
  {
    if n == 0 then s else One(Many(s, n - 1))
  }

  function Cleared(s: State): State
  {
    if s.count == 0 then Many(s, |s.queue|) else s.(count := 0)
  }

  /** A waiter that the scheduler lets run looks at its mark first. */
  function Wake(s: State, t: nat, signal: bool, jiffies: int): (State, Result)
  {
    if t in s.up then (s.(up := s.up - {t}), Got)
    else if t in s.queue && t < |s.kinds| then Settle(s, t, s.kinds[t], signal, jiffies)
    else (s, Missed)
  }

  function Next(s: State, e: Step): (State, Result)
  {
    match e
    case Down(kind, signal, jiffies) => TakeDown(s, kind, signal, jiffies)
    case Trylock => if s.count > 0 then (s.(count := s.count - 1), Got) else (s, Missed)
    case Up(n) => (Many(s, n), Got)
    case Reset => (Cleared(s), Got)
    case Resume(t, signal, jiffies) => Wake(s, t, signal, jiffies)
  }

  function After(s: State, es: seq<Step>): State
  {
    if es == [] then s else Next(After(s, es[..|es| - 1]), es[|es| - 1]).0
  }

  // ----- what every step keeps -----

  ghost predicate Increasing(q: seq<nat>)
  {
    forall i, j | 0 <= i < j < |q| :: q[i] < q[j]
  }

  ghost predicate Issued(q: seq<nat>, n: nat)
  {
    forall i | 0 <= i < |q| :: q[i] < n
  }

  /** A positive count means nobody waits, the wait list is in order of arrival, and nobody in it
      is marked. */
  ghost predicate Inv(s: State)
  {
    && (s.count > 0 ==> s.queue == []) && Increasing(s.queue) && Issued(s.queue, |s.kinds|)
    && (forall t <- s.up :: t < |s.kinds| && t !in s.queue)
  }

  /** Removing a ticket from an ordered wait list takes out the one entry that has it. */
  lemma {:induction false} WithoutAt(q: seq<nat>, k: nat)
    requires k < |q| && Increasing(q)
    ensures Without(q, q[k]) == q[..k] + q[k + 1..]
  {
    if k > 0 {
      WithoutAt(q[1..], k - 1);
      assert q[1..][k - 1] == q[k] && q[0] < q[k];
      assert [q[0]] + (q[1..][..k - 1] + q[1..][k..]) == q[..k] + q[k + 1..];
    }
  }

  lemma {:induction false} WithoutKeeps(q: seq<nat>, k: nat, n: nat)
    requires k < |q| && Increasing(q) && Issued(q, n)
    ensures Increasing(q[..k] + q[k + 1..]) && Issued(q[..k] + q[k + 1..], n)
    ensures q[k] !in q[..k] + q[k + 1..] && forall t <- q[..k] + q[k + 1..] :: t in q
  {
  }

  lemma {:induction false} SettleKeeps(s: State, t: nat, kind: Kind, signal: bool, jiffies: int)
    requires Inv(s) && t in s.queue
    ensures Inv(Settle(s, t, kind, signal, jiffies).0)
    ensures var (s', r) := Settle(s, t, kind, signal, jiffies);
            && s'.count == s.count && s'.up == s.up && s'.kinds == s.kinds
            && (if r == Asleep then s' == s
                else && r in {TimedOut, Aborted} && |s'.queue| == |s.queue| - 1 && t !in s'.queue
                     && s'.queue == Without(s.queue, t))
  {
    var k :| 0 <= k < |s.queue| && s.queue[k] == t;
    WithoutAt(s.queue, k);
    WithoutKeeps(s.queue, k, |s.kinds|);
  }

  /** A newcomer goes to the end of the wait list. */
  lemma {:induction false} JoinKeeps(s: State, kind: Kind)
    requires Inv(s) && s.count == 0
    ensures Inv(s.(queue := s.queue + [|s.kinds|], kinds := s.kinds + [kind]))
  {
  }

  lemma {:induction false} OneKeeps(s: State)
    requires Inv(s)
    ensures Inv(One(s)) && Level(One(s)) == Level(s) + 1
  {
  }

  lemma {:induction false} ManyKeeps(s: State, n: nat)
    requires Inv(s)
    ensures Inv(Many(s, n)) && Level(Many(s, n)) == Level(s) + n
    decreases n
  {
    if n > 0 {
      ManyKeeps(s, n - 1);
      OneKeeps(Many(s, n - 1));
    }
  }

  // ----- one signed counter -----

  /** What scount reports. */
  function Level(s: State): int
  {
    if s.count > 0 then s.count else -|s.queue|
  }

  /** The counter that the count and the wait list implement: what a step with a given result does
      to it. */
  function Counter(c: int, e: Step, r: Result): int
  {
    match e
    case Down(_, _, _) => if r in {TimedOut, Aborted} then c else c - 1
    case Trylock => if r == Got then c - 1 else c
    case Up(n) => c + n
    case Reset => 0
    case Resume(_, _, _) => if r in {TimedOut, Aborted} then c + 1 else c
  }

  /** Every step keeps the invariant and acts on the reported level like on one signed counter; a
      down succeeds at once, and a trylock succeeds, exactly if the counter is positive. */
  lemma {:induction false} NextKeeps(s: State, e: Step)
    requires Inv(s)
    ensures Inv(Next(s, e).0)
    ensures Level(Next(s, e).0) == Counter(Level(s), e, Next(s, e).1)
    ensures e.Down? || e.Trylock? ==> (Next(s, e).1 == Got <==> Level(s) > 0)
  {
    match e
    case Down(kind, signal, jiffies) =>
      if s.count == 0 {
        var s1 := s.(queue := s.queue + [|s.kinds|], kinds := s.kinds + [kind]);
        JoinKeeps(s, kind);
        assert s1.queue[|s.queue|] == |s.kinds|;
        SettleKeeps(s1, |s.kinds|, kind, signal, jiffies);
      }
    case Trylock =>
    case Up(n) => ManyKeeps(s, n);
    case Reset => ManyKeeps(s, |s.queue|);
    case Resume(t, signal, jiffies) =>
      if t in s.queue && t !in s.up { SettleKeeps(s, t, s.kinds[t], signal, jiffies); }
  }

  function Results(s: State, es: seq<Step>): (rs: seq<Result>)
    ensures |rs| == |es|
  {
    if es == [] then []
    else Results(s, es[..|es| - 1]) + [Next(After(s, es[..|es| - 1]), es[|es| - 1]).1]
  }

  function CounterAfter(c: int, es: seq<Step>, rs: seq<Result>): int
    requires |rs| == |es|
  {
    if es == [] then c
    else Counter(CounterAfter(c, es[..|es| - 1], rs[..|es| - 1]), es[|es| - 1], rs[|es| - 1])
  }

  /** In every run, a positive count means that nobody waits, and the level is that of the signed
      counter. */
  lemma {:induction false} RunKeeps(s: State, es: seq<Step>)
    requires Inv(s)
    ensures Inv(After(s, es)) && Level(After(s, es)) == CounterAfter(Level(s), es, Results(s, es))
  {
    if es != [] {
      var n := |es| - 1;
      RunKeeps(s, es[..n]);
      NextKeeps(After(s, es[..n]), es[n]);
      assert Results(s, es)[..n] == Results(s, es[..n]);
    }
  }

  // ----- grants -----

  /** The books kept beside a run: downs that succeeded at once, tickets granted in order, tickets
      whose task has returned with or without the semaphore, ups, waiters woken by a reset, and
      counts discarded by one. */
  datatype Ledger = Ledger(direct: nat, granted: seq<nat>, back: set<nat>, gone: set<nat>, ups: nat, woken: nat,
      dropped: nat)

  function Min(a: nat, b: nat): nat
  {
    if a <= b then a else b
  }

  function Book(l: Ledger, s: State, e: Step): Ledger
  {
    var r := Next(s, e).1;
    match e
    case Down(_, _, _) =>
      if r == Got then l.(direct := l.direct + 1)
      else if r == Asleep then l else l.(gone := l.gone + {|s.kinds|})
    case Trylock => if r == Got then l.(direct := l.direct + 1) else l
    case Up(n) => l.(ups := l.ups + n, granted := l.granted + s.queue[..Min(n, |s.queue|)])
    case Reset =>
      if s.count == 0 then l.(woken := l.woken + |s.queue|, granted := l.granted + s.queue)
      else l.(dropped := l.dropped + s.count)
    case Resume(t, _, _) =>
      if r == Got then l.(back := l.back + {t})
      else if r in {TimedOut, Aborted} then l.(gone := l.gone + {t}) else l
  }

  datatype World = World(s: State, l: Ledger)

  function Start(count: nat): World
  {
    World(Init(count), Ledger(0, [], {}, {}, 0, 0, 0))
  }

  function Stepped(w: World, e: Step): World
  {
    World(Next(w.s, e).0, Book(w.l, w.s, e))
  }

  function Play(w: World, es: seq<Step>): World
  {
    if es == [] then w else Stepped(Play(w, es[..|es| - 1]), es[|es| - 1])
  }

  /** Nothing is lost or handed out twice. */
  ghost predicate Conserved(initial: nat, w: World)
  {
    initial + w.l.ups + w.l.woken == w.s.count + w.l.direct + |w.l.granted| + w.l.dropped
  }

  /** Grants go in order of arrival: every ticket granted precedes every ticket still waiting. */
  ghost predicate Fifo(w: World)
  {
    Increasing(w.l.granted + w.s.queue)
  }

  /** Every waiter is in exactly one place: waiting, marked, returned with the semaphore, or returned
      without; and the granted ones are those marked or returned with it. */
  ghost predicate Partitioned(w: World)
  {
    && (forall t: nat :: t in w.l.granted <==> t in w.s.up || t in w.l.back)
    && (forall t: nat :: t < |w.s.kinds| <==> t in w.s.queue || t in w.s.up || t in w.l.back || t in w.l.gone)
    && w.s.up !! w.l.back !! w.l.gone && (forall t <- w.s.queue :: t !in w.s.up && t !in w.l.back && t !in w.l.gone)
  }

  ghost predicate Sound(initial: nat, w: World)
  {
    Inv(w.s) && Conserved(initial, w) && Fifo(w) && Partitioned(w)
  }

  /** n ups mark the first n waiters, or all of them, and add the rest to the count. */
  lemma {:induction false} ManyMeans(s: State, n: nat)
    ensures var m := Min(n, |s.queue|);
            && Many(s, n).queue == s.queue[m..] && Many(s, n).count == s.count + n - m && Many(s, n).kinds == s.kinds
            && Many(s, n).up == s.up + set t | t in s.queue[..m]
    decreases n
  {
    if n > 0 {
      ManyMeans(s, n - 1);
      var m := Min(n - 1, |s.queue|);
      if m < |s.queue| {
        assert s.queue[m..][1..] == s.queue[m + 1..] && s.queue[m..][0] == s.queue[m];
        assert s.queue[..m + 1] == s.queue[..m] + [s.queue[m]];
      }
    } else {
      assert s.queue[..0] == [] && s.queue[0..] == s.queue;
    }
  }

  /** The waiters in front of a wait list are granted. */
  lemma {:induction false} GrantSound(initial: nat, w: World, w': World, m: nat)
    requires Sound(initial, w) && m <= |w.s.queue| && Inv(w'.s) && Conserved(initial, w')
    requires w'.s.kinds == w.s.kinds && w'.s.queue == w.s.queue[m..] && w'.s.up == w.s.up + set t | t in w.s.queue[..m]
    requires w'.l.granted == w.l.granted + w.s.queue[..m] && w'.l.back == w.l.back && w'.l.gone == w.l.gone
    ensures Sound(initial, w')
  {
    assert w'.l.granted + w'.s.queue == w.l.granted + w.s.queue;
    GrantPartitioned(w, w', m);
  }

  lemma {:induction false} GrantPartitioned(w: World, w': World, m: nat)
    requires Partitioned(w) && m <= |w.s.queue| && Inv(w.s)
    requires w'.s.kinds == w.s.kinds && w'.s.queue == w.s.queue[m..] && w'.s.up == w.s.up + set t | t in w.s.queue[..m]
    requires w'.l.granted == w.l.granted + w.s.queue[..m] && w'.l.back == w.l.back && w'.l.gone == w.l.gone
    ensures Partitioned(w')
  {
    var q := w.s.queue;
    forall t: nat ensures t in q <==> t in q[..m] || t in q[m..] { SplitIn(q, m, t); }
    forall t | t in q[..m] ensures t !in q[m..] { SplitOnce(q, m, t); }
    forall t: nat ensures t in w'.l.granted <==> t in w.l.granted || t in q[..m] {}
  }

  lemma {:induction false} SplitIn(q: seq<nat>, m: nat, t: nat)
    requires m <= |q|
    ensures t in q <==> t in q[..m] || t in q[m..]
  {
    assert q == q[..m] + q[m..];
  }

  lemma {:induction false} SplitOnce(q: seq<nat>, m: nat, t: nat)
    requires m <= |q| && Increasing(q) && t in q[..m]
    ensures t !in q[m..]
  {
  }

  lemma {:induction false} SnocIn(q: seq<nat>, x: nat, t: nat)
    ensures t in q + [x] <==> t in q || t == x
  {
  }

  /** A newcomer that goes to sleep. */
  lemma {:induction false} JoinSound(initial: nat, w: World, kind: Kind)
    requires Sound(initial, w) && w.s.count == 0
    ensures Sound(initial, World(w.s.(queue := w.s.queue + [|w.s.kinds|], kinds := w.s.kinds + [kind]), w.l))
  {
    var t', w' := |w.s.kinds|, World(w.s.(queue := w.s.queue + [|w.s.kinds|], kinds := w.s.kinds + [kind]), w.l);
    JoinKeeps(w.s, kind);
    forall t: nat ensures t in w'.s.queue <==> t in w.s.queue || t == t' { SnocIn(w.s.queue, t', t); }
    var a := w.l.granted + w.s.queue;
    assert w'.l.granted + w'.s.queue == a + [t'];
    forall i | 0 <= i < |a| ensures a[i] < t' {
      if i < |w.l.granted| { assert a[i] == w.l.granted[i] && w.l.granted[i] in w.l.granted; }
      else { assert a[i] == w.s.queue[i - |w.l.granted|]; }
    }
  }

  /** A waiter that gives up. */
  lemma {:induction false} QuitSound(initial: nat, w: World, t: nat)
    requires Sound(initial, w) && t in w.s.queue
    ensures Sound(initial, World(w.s.(queue := Without(w.s.queue, t)), w.l.(gone := w.l.gone + {t})))
  {
    var q, g := w.s.queue, w.l.granted;
    var k :| 0 <= k < |q| && q[k] == t;
    WithoutAt(q, k);
    WithoutKeeps(q, k, |w.s.kinds|);
    QuitPartitioned(w, t, k);
    SkipOne(g, q, k);
  }

  lemma {:induction false} QuitPartitioned(w: World, t: nat, k: nat)
    requires Partitioned(w) && Increasing(w.s.queue) && k < |w.s.queue| && w.s.queue[k] == t
    ensures Partitioned(World(w.s.(queue := Without(w.s.queue, t)), w.l.(gone := w.l.gone + {t})))
  {
    forall u: nat ensures u in Without(w.s.queue, t) <==> u in w.s.queue && u != t { WithoutIn(w.s.queue, k, u); }
  }

  lemma {:induction false} WithoutIn(q: seq<nat>, k: nat, u: nat)
    requires k < |q| && Increasing(q)
    ensures u in Without(q, q[k]) <==> u in q && u != q[k]
  {
    var x, rest := q[0], q[1..];
    assert u in q <==> u == x || u in rest;
    if k > 0 {
      assert rest[k - 1] == q[k];
      WithoutIn(rest, k - 1, u);
    }
  }

  lemma {:induction false} SkipOne(g: seq<nat>, q: seq<nat>, k: nat)
    requires k < |q| && Increasing(g + q)
    ensures Increasing(g + (q[..k] + q[k + 1..]))
  {
    var a, b := g + q, g + (q[..k] + q[k + 1..]);
    assert forall i | 0 <= i < |b| :: b[i] == a[if i < |g| + k then i else i + 1];
  }

  lemma {:induction false} DownSound(initial: nat, w: World, e: Step)
    requires Sound(initial, w) && e.Down?
    ensures Sound(initial, Stepped(w, e))
  {
    NextKeeps(w.s, e);
    if w.s.count == 0 {
      var t, w1 := |w.s.kinds|, World(w.s.(queue := w.s.queue + [|w.s.kinds|], kinds := w.s.kinds + [e.kind]), w.l);
      JoinSound(initial, w, e.kind);
      assert w1.s.queue[|w.s.queue|] == t;
      QuitSound(initial, w1, t);
      assert Stepped(w, e) == w1
          || Stepped(w, e) == World(w1.s.(queue := Without(w1.s.queue, t)), w1.l.(gone := w1.l.gone + {t}));
    }
  }

  lemma {:induction false} UpSound(initial: nat, w: World, n: nat)
    requires Sound(initial, w)
    ensures Sound(initial, Stepped(w, Up(n)))
  {
    NextKeeps(w.s, Up(n));
    ManyMeans(w.s, n);
    GrantSound(initial, w, Stepped(w, Up(n)), Min(n, |w.s.queue|));
  }

  lemma {:induction false} ResetSound(initial: nat, w: World)
    requires Sound(initial, w)
    ensures Sound(initial, Stepped(w, Reset))
  {
    NextKeeps(w.s, Reset);
    if w.s.count == 0 {
      ManyMeans(w.s, |w.s.queue|);
      assert w.s.queue[..|w.s.queue|] == w.s.queue;
      GrantSound(initial, w, Stepped(w, Reset), |w.s.queue|);
    }
  }

  lemma {:induction false} OtherSound(initial: nat, w: World, e: Step)
    requires Sound(initial, w) && (e.Trylock? || e.Resume?)
    ensures Sound(initial, Stepped(w, e))
  {
    NextKeeps(w.s, e);
    if e.Resume? && e.ticket in w.s.queue && e.ticket !in w.s.up { QuitSound(initial, w, e.ticket); }
  }

  lemma {:induction false} StepSound(initial: nat, w: World, e: Step)
    requires Sound(initial, w)
    ensures Sound(initial, Stepped(w, e))
  {
    match e
    case Down(_, _, _) => DownSound(initial, w, e);
    case Trylock => OtherSound(initial, w, e);
    case Up(n) => UpSound(initial, w, n);
    case Reset => ResetSound(initial, w);
    case Resume(_, _, _) => OtherSound(initial, w, e);
  }

  /** In every run from any initial count: every grant is accounted for, grants go in order of
      arrival, and every waiter leaves the wait list exactly once. */
  lemma {:induction false} PlaySound(initial: nat, es: seq<Step>)
    ensures Sound(initial, Play(Start(initial), es))
  {
    if es != [] {
      PlaySound(initial, es[..|es| - 1]);
      StepSound(initial, Play(Start(initial), es[..|es| - 1]), es[|es| - 1]);
    }
  }

  /** A waiter marked up stays marked until it runs, whatever the others do, and then returns with
      the semaphore even if its time is up or a signal is pending. */
  lemma {:induction false} MarkedReturns(s: State, t: nat, e: Step)
    requires Inv(s) && t in s.up
    ensures e.Resume? && e.ticket == t ==> Next(s, e).1 == Got && t !in Next(s, e).0.up
    ensures !(e.Resume? && e.ticket == t) ==> t in Next(s, e).0.up
  {
    match e
    case Up(n) => ManyMeans(s, n);
    case Reset => ManyMeans(s, |s.queue|);
    case Down(kind, signal, jiffies) =>
    case Trylock =>
    case Resume(_, _, _) =>
  }

  /** A waiter that nobody has marked leaves the wait list only by a mark, a signal or its time
      running out: it never returns with the semaphore by itself. */
  lemma {:induction false} UnmarkedWaits(s: State, t: nat, e: Step)
    requires Inv(s) && t in s.queue
    ensures t in Next(s, e).0.queue || t in Next(s, e).0.up ||
            (e.Resume? && e.ticket == t && Next(s, e).1 in {TimedOut, Aborted})
  {
    var k :| 0 <= k < |s.queue| && s.queue[k] == t;
    match e
    case Up(n) => MarkedAt(s, n, k);
    case Reset => MarkedAt(s, |s.queue|, k);
    case Down(kind, signal, jiffies) =>
      var q := s.queue + [|s.kinds|];
      assert q[|s.queue|] == |s.kinds|;
      if s.count == 0 { JoinKeeps(s, kind); }
      WithoutIn(q, |s.queue|, t);
    case Trylock =>
    case Resume(u, signal, jiffies) =>
      if u != t && u in s.queue {
        var j :| 0 <= j < |s.queue| && s.queue[j] == u;
        WithoutIn(s.queue, j, t);
      }
  }

  lemma {:induction false} MarkedAt(s: State, n: nat, k: nat)
    requires k < |s.queue|
    ensures s.queue[k] in Many(s, n).up || s.queue[k] in Many(s, n).queue
  {
    ManyMeans(s, n);
    var m := Min(n, |s.queue|);
    if k < m { assert s.queue[..m][k] == s.queue[k]; } else { assert s.queue[m..][k - m] == s.queue[k]; }
  }

  // ----- what each step tells its task -----

  /** Why a task that has not got the semaphore returns: it is interruptible and a signal is pending, or it has a
      time limit and no time is left; otherwise, and so always if it waits without either, it sleeps. */
  predicate Settled(kind: Kind, signal: bool, jiffies: int, r: Result)
  {
    && (r == Aborted <==> kind == Interruptible && signal)
    && (r == TimedOut <==> kind == Timed && jiffies <= 0)
    && (r == Asleep <==> !(kind == Interruptible && signal) && !(kind == Timed && jiffies <= 0))
  }

  /** A down takes from a positive count; on an empty one, it joins the end of the wait list if it sleeps. */
  lemma {:induction false} DownMeans(s: State, kind: Kind, signal: bool, jiffies: int)
    requires Inv(s)
    ensures var (s', r) := Next(s, Down(kind, signal, jiffies));
            if s.count > 0 then r == Got && s' == s.(count := s.count - 1)
            else Settled(kind, signal, jiffies, r)
                 && s' == s.(queue := if r == Asleep then s.queue + [|s.kinds|] else s.queue, kinds := s.kinds + [kind])
  {
    if s.count == 0 {
      var q, n := s.queue + [|s.kinds|], |s.queue|;
      JoinKeeps(s, kind);
      assert q[n] == |s.kinds|;
      WithoutAt(q, n);
      assert q[..n] + q[n + 1..] == s.queue;
    }
  }

  /** A waiter that runs unmarked sleeps on, or leaves the wait list from its place. */
  lemma {:induction false} ResumeMeans(s: State, k: nat, signal: bool, jiffies: int)
    requires Inv(s) && k < |s.queue|
    ensures var (s', r) := Next(s, Resume(s.queue[k], signal, jiffies));
            && Settled(s.kinds[s.queue[k]], signal, jiffies, r)
            && s' == s.(queue := if r == Asleep then s.queue else s.queue[..k] + s.queue[k + 1..])
  {
    WithoutAt(s.queue, k);
  }

  /** A reset discards a positive count; otherwise it marks everybody who waits. */
  lemma {:induction false} ResetMeans(s: State)
    ensures Next(s, Reset).0
         == if s.count > 0 then s.(count := 0) else s.(queue := [], up := s.up + set t | t in s.queue)
  {
    ManyMeans(s, |s.queue|);
    assert s.queue[..|s.queue|] == s.queue && s.queue[|s.queue|..] == [];
  }
}
