/** The event queue of a client of ctr/driver/ctrdrvr-pci.c: a ring of 64 entries that drops the
    oldest when full. */
module ClientQueue {

  const QUEUE_SIZE := 64

  /** What happened to a queue since it was last cleared: all events put on it, which of them were
      read, how many it holds, how many were dropped, and how many of these were reported. */
  datatype Log<T> = Log(pushed: seq<T>, taken: seq<nat>, size: nat, lost: nat, reported: nat)
  {
    /** Every event was read, is still there, or was dropped; what is there is newer than what was
        read, and events were read in the order they came. */
    ghost predicate Valid()
    {
      && size <= QUEUE_SIZE && |pushed| == |taken| + size + lost && reported <= lost
      && (forall i, j | 0 <= i < j < |taken| :: taken[i] < taken[j])
      && (forall i | 0 <= i < |taken| :: taken[i] < |pushed| - size)
    }

    /** The queue holds the most recent events. */
    function Contents(): (q: seq<T>)
      requires size <= |pushed|
      ensures |q| == size
    {
      pushed[|pushed| - size..]
    }

    function Push(x: T): Log<T>
    {
      if size < QUEUE_SIZE then this.(pushed := pushed + [x], size := size + 1)
      else this.(pushed := pushed + [x], lost := lost + 1)
    }

    function Pop(): Log<T>
      requires 0 < size <= |pushed|
    {
      this.(taken := taken + [|pushed| - size], size := size - 1)
    }

    function Report(): Log<T>
    {
      this.(reported := lost)
    }

    /** The 16-bit count of events missed since the last report. */
    function Missed(): nat
      requires reported <= lost
    {
      (lost - reported) % 0x1_0000
    }
  }

  function Fresh<T>(): Log<T>
  {
    Log([], [], 0, 0, 0)
  }

  datatype Op<T> = Put(x: T) | Get | Overflow | Clear

  function Apply<T>(l: Log<T>, op: Op<T>): Log<T>
  {
    match op
    case Put(x) => l.Push(x)
    case Get => if 0 < l.size <= |l.pushed| then l.Pop() else l
    case Overflow => l.Report()
    case Clear => Fresh()
  }

  function ApplyAll<T>(l: Log<T>, ops: seq<Op<T>>): Log<T>
  {
    if ops == [] then l else Apply(ApplyAll(l, ops[..|ops| - 1]), ops[|ops| - 1])
  }

  /** A bounded first-in first-out queue that makes room by dropping its oldest entry. */
  function Bounded<T>(q: seq<T>, op: Op<T>): seq<T>
  {
    match op
    case Put(x) => (if |q| < QUEUE_SIZE || q == [] then q else q[1..]) + [x]
    case Get => if q == [] then q else q[1..]
    case Overflow => q
    case Clear => []
  }

  function BoundedAll<T>(q: seq<T>, ops: seq<Op<T>>): seq<T>
  {
    if ops == [] then q else Bounded(BoundedAll(q, ops[..|ops| - 1]), ops[|ops| - 1])
  }

  lemma {:induction false} PushedValid<T>(l: Log<T>, x: T)
    requires l.Valid()
    ensures l.Push(x).Valid() && l.Push(x).Contents() == Bounded(l.Contents(), Put(x))
    ensures l.Push(x).Missed() == if l.size < QUEUE_SIZE then l.Missed() else (l.Missed() + 1) % 0x1_0000
  {
    PushedLog(l, x);
    PushedContents(l, x);
    if l.size == QUEUE_SIZE { OneMissed(l.lost - l.reported); }
  }

  lemma {:induction false} PushedLog<T>(l: Log<T>, x: T)
    requires l.Valid()
    ensures l.Push(x).Valid()
  {
  }

  lemma {:induction false} PushedContents<T>(l: Log<T>, x: T)
    requires l.size <= |l.pushed| && l.size <= QUEUE_SIZE
    ensures l.Push(x).size <= |l.Push(x).pushed| && l.Push(x).Contents() == Bounded(l.Contents(), Put(x))
  {
    if l.size < QUEUE_SIZE {
      LastOf(l.pushed, x, l.size);
    } else {
      LastOf(l.pushed, x, l.size - 1);
      assert l.pushed[|l.pushed| - (l.size - 1)..] == l.Contents()[1..];
    }
  }

  lemma {:induction false} LastOf<T>(s: seq<T>, x: T, n: nat)
    requires n <= |s|
    ensures (s + [x])[|s| - n..] == s[|s| - n..] + [x]
  {
  }

  lemma {:induction false} OneMissed(n: nat)
    ensures (n + 1) % 0x1_0000 == (n % 0x1_0000 + 1) % 0x1_0000
  {
  }

  lemma {:induction false} PoppedValid<T>(l: Log<T>)
    requires l.Valid() && l.size > 0
    ensures l.Pop().Valid() && l.Pop().Contents() == l.Contents()[1..] &&
            l.pushed[|l.pushed| - l.size] == l.Contents()[0]
  {
  }

  lemma {:induction false} ApplyKeeps<T>(l: Log<T>, op: Op<T>)
    requires l.Valid()
    ensures Apply(l, op).Valid() && Apply(l, op).Contents() == Bounded(l.Contents(), op)
    ensures op.Get? && l.size > 0 ==> l.pushed[|l.pushed| - l.size] == l.Contents()[0]
  {
    match op
    case Put(x) => PushedValid(l, x);
    case Get => if l.size > 0 { PoppedValid(l); }
    case Overflow =>
    case Clear =>
  }

  /** In every run the queue is a bounded drop-oldest queue, it holds the most recent events, and all
      events are accounted for. */
  lemma {:induction false} RunKeeps<T>(l: Log<T>, ops: seq<Op<T>>)
    requires l.Valid()
    ensures ApplyAll(l, ops).Valid() && ApplyAll(l, ops).Contents() == BoundedAll(l.Contents(), ops)
  {
    if ops != [] {
      RunKeeps(l, ops[..|ops| - 1]);
      ApplyKeeps(ApplyAll(l, ops[..|ops| - 1]), ops[|ops| - 1]);
    }
  }

  /** Between clears and reports: pushed = read + size + missed, modulo the width of the counter. */
  lemma {:induction false} Balance<T>(l: Log<T>)
    requires l.Valid() && l.reported == 0
    ensures |l.pushed| % 0x1_0000 == (|l.taken| + l.size + l.Missed()) % 0x1_0000
  {
    var a, b := |l.taken| + l.size, l.lost;
    assert b == b / 0x1_0000 * 0x1_0000 + b % 0x1_0000;
    assert (a + b) % 0x1_0000 == (a + b % 0x1_0000) % 0x1_0000;
  }

  /** How many events a queue in the given state misses in a run. */
  function Drops<T>(q: seq<T>, ops: seq<Op<T>>): nat
  {
    if ops == [] then 0
    else Drops(q, ops[..|ops| - 1])
         + if ops[|ops| - 1].Put? && |BoundedAll(q, ops[..|ops| - 1])| == QUEUE_SIZE then 1 else 0
  }

  /** A report starts the count of missed events from zero: the next one tells how many were missed in between,
      so none if nothing happened. */
  lemma {:induction false} ReportedOnce<T>(l: Log<T>, ops: seq<Op<T>>)
    requires l.Valid() && forall i | 0 <= i < |ops| :: ops[i].Put? || ops[i].Get?
    ensures var w := ApplyAll(Apply(l, Overflow), ops);
            && w.Valid() && w.Contents() == BoundedAll(l.Contents(), ops)
            && w.Missed() == Drops(l.Contents(), ops) % 0x1_0000
            && (ops == [] ==> w.Missed() == 0)
  {
    ApplyKeeps(l, Overflow);
    RunKeeps(Apply(l, Overflow), ops);
    if ops != [] {
      var init := ops[..|ops| - 1];
      ReportedOnce(l, init);
      RunKeeps(Apply(l, Overflow), init);
      MissedStep(ApplyAll(Apply(l, Overflow), init), ops[|ops| - 1], Drops(l.Contents(), init));
    }
  }

  lemma {:induction false} MissedStep<T>(l: Log<T>, op: Op<T>, n: nat)
    requires l.Valid() && l.Missed() == n % 0x1_0000 && (op.Put? || op.Get?)
    ensures Apply(l, op).reported <= Apply(l, op).lost
    ensures Apply(l, op).Missed() == (n + if op.Put? && |l.Contents()| == QUEUE_SIZE then 1 else 0) % 0x1_0000
  {
    ApplyKeeps(l, op);
    if op.Put? {
      PushedValid(l, op.x);
      OneMissed(n);
    }
  }

  /** The ring position i places on from a start. */
  function Slot(start: nat, i: nat): (p: nat)
    ensures p < QUEUE_SIZE
  {
    (start + i) % QUEUE_SIZE
  }

  lemma {:induction false} SlotStep(start: nat, i: nat)
    ensures Slot(Slot(start, 1), i) == Slot(start, i + 1) == Slot(Slot(start, i), 1)
  {
    Wrapped(start + 1, i);
    Wrapped(start + i, 1);
  }

  lemma {:induction false} Wrapped(a: nat, b: nat)
    ensures (a % QUEUE_SIZE + b) % QUEUE_SIZE == (a + b) % QUEUE_SIZE
  {
    var q := a / QUEUE_SIZE;
    assert a + b == QUEUE_SIZE * q + (a % QUEUE_SIZE + b);
  }

  lemma {:induction false} SlotWraps(start: nat)
    requires start < QUEUE_SIZE
    ensures Slot(start, QUEUE_SIZE) == Slot(start, 0) == start
  {
  }

  /** A ring holds a queue from a read position on. */
  ghost predicate Holds<T>(ring: seq<T>, rd: nat, q: seq<T>)
    requires |ring| == QUEUE_SIZE
  {
    forall i: nat | i < |q| :: ring[Slot(rd, i)] == q[i]
  }

  lemma {:induction false} DropHolds<T>(ring: seq<T>, rd: nat, q: seq<T>)
    requires |ring| == QUEUE_SIZE && rd < QUEUE_SIZE && q != [] && Holds(ring, rd, q)
    ensures Holds(ring, Slot(rd, 1), q[1..]) && ring[rd] == q[0]
  {
    forall i: nat | i < |q[1..]| ensures ring[Slot(Slot(rd, 1), i)] == q[1..][i] {
      SlotStep(rd, i);
      assert ring[Slot(rd, i + 1)] == q[i + 1];
    }
    assert ring[Slot(rd, 0)] == q[0];
  }

  lemma {:induction false} PutHolds<T>(ring: seq<T>, rd: nat, q: seq<T>, x: T)
    requires |ring| == QUEUE_SIZE && |q| < QUEUE_SIZE && Holds(ring, rd, q)
    ensures Holds(ring[Slot(rd, |q|) := x], rd, q + [x])
  {
  }

  /** On a full ring the new entry takes the place of the oldest. */
  lemma {:induction false} FullHolds<T>(ring: seq<T>, rd: nat, q: seq<T>, x: T)
    requires |ring| == QUEUE_SIZE && |q| == QUEUE_SIZE && rd < QUEUE_SIZE && Holds(ring, rd, q)
    ensures Slot(rd, |q|) == rd && Holds(ring[rd := x], Slot(rd, 1), q[1..] + [x])
  {
    SlotWraps(rd);
    DropHolds(ring, rd, q);
    SlotStep(rd, |q| - 1);
    PutHolds(ring, Slot(rd, 1), q[1..], x);
  }

  /** The fields of a queue record its log. */
  ghost predicate Shape<T>(ring: seq<T>, rd: nat, wr: nat, size: nat, missed: nat, l: Log<T>)
  {
    && |ring| == QUEUE_SIZE && l.Valid() && size == l.size && missed == l.Missed()
    && rd < QUEUE_SIZE && wr == Slot(rd, size) && Holds(ring, rd, l.Contents())
  }

  lemma {:induction false} PushShape<T>(ring: seq<T>, rd: nat, wr: nat, size: nat, missed: nat, l: Log<T>, x: T)
    requires Shape(ring, rd, wr, size, missed, l)
    ensures l.size < QUEUE_SIZE ==> Shape(ring[wr := x], rd, Slot(wr, 1), size + 1, missed, l.Push(x))
    ensures l.size == QUEUE_SIZE ==>
              Shape(ring[wr := x], Slot(rd, 1), Slot(wr, 1), size, (missed + 1) % 0x1_0000, l.Push(x))
  {
    PushedValid(l, x);
    SlotStep(rd, size);
    if l.size < QUEUE_SIZE { PutHolds(ring, rd, l.Contents(), x); } else { FullHolds(ring, rd, l.Contents(), x); }
  }

  lemma {:induction false} PopShape<T>(ring: seq<T>, rd: nat, wr: nat, size: nat, missed: nat, l: Log<T>)
    requires Shape(ring, rd, wr, size, missed, l) && l.size > 0
    ensures ring[rd] == l.Contents()[0] && Shape(ring, Slot(rd, 1), wr, size - 1, missed, l.Pop())
  {
    DropHolds(ring, rd, l.Contents());
    SlotStep(rd, size - 1);
    PoppedValid(l);
  }

  /** CtrDrvrQueue */
  class Queue<T(0)> {
    const entries: array<T>
    var rd: nat
    var wr: nat
    var size: nat
    var missed: nat
    ghost var log: Log<T>

    ghost predicate Valid()
      reads this, entries
    {
      entries.Length == QUEUE_SIZE && Shape(entries[..], rd, wr, size, missed, log)
    }

    constructor ()
      ensures Valid() && log == Fresh() && fresh(entries)
    {
      entries := new T[QUEUE_SIZE];
      rd, wr, size, missed, log := 0, 0, 0, 0, Fresh();
    }

    /** What the interrupt handler and CtrDrvrWrite do with interrupts disabled.  The semaphore is to
        be signalled exactly if the queue was not full. */
    method Push(x: T) returns (signal: bool)
      requires Valid()
      modifies this, entries
      ensures Valid() && log == old(log).Push(x) && signal == (old(log).size < QUEUE_SIZE)
    {
      ghost var ring := entries[..];
      PushShape(ring, rd, wr, size, missed, log, x);
      entries[wr] := x;
      assert entries[..] == ring[wr := x];
      wr := Slot(wr, 1);
      signal := size < QUEUE_SIZE;
      if signal {
        size := size + 1;
      } else {
        missed := (missed + 1) % 0x1_0000;
        rd := Slot(rd, 1);
      }
      log := log.Push(x);
    }

    /** The end of CtrDrvrRead. */
    method Pop() returns (x: T)
      requires Valid() && log.size > 0
      modifies this
      ensures Valid() && log == old(log).Pop() && x == old(log.Contents()[0])
    {
      PopShape(entries[..], rd, wr, size, missed, log);
      x := entries[rd];
      rd := Slot(rd, 1);
      size := size - 1;
      log := log.Pop();
    }

    /** The start of CtrDrvrRead when queueing is off. */
    method Empty()
      requires Valid()
      modifies this
      ensures Valid() && log == Fresh()
    {
      rd, wr, size, missed, log := 0, 0, 0, 0, Fresh();
    }

    /** CtrDrvrGET_QUEUE_OVERFLOW */
    method GetOverflow() returns (n: nat)
      requires Valid()
      modifies this
      ensures Valid() && log == old(log).Report() && n == old(log).Missed()
    {
      n := missed;
      missed, log := 0, log.Report();
    }
  }
}
