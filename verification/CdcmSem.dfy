/** ctr/driver/cdcmSem.c (and the same code in cdcm/cdcmTime.c): the semaphore as it is, with a
    count and a circular list of waiter records, each section under the lock being a method. */
module CdcmSem {
  import opened ListHead
  import opened SemSpec

  /** The tickets of a list of records. */
  ghost function Tickets(c: seq<Node>): (q: seq<nat>)
    ensures |q| == |c|
  {
    if c == [] then [] else Tickets(c[..|c| - 1]) + [c[|c| - 1].ticket]
  }

  lemma {:induction false} TicketAt(c: seq<Node>, k: nat)
    requires k < |c|
    ensures Tickets(c)[k] == c[k].ticket
  {
    if k < |c| - 1 { TicketAt(c[..|c| - 1], k); }
  }

  lemma {:induction false} TicketsWithout(c: seq<Node>, k: nat)
    requires k < |c|
    ensures Tickets(c)[k] == c[k].ticket
    ensures Tickets(c[..k] + c[k + 1..]) == Tickets(c)[..k] + Tickets(c)[k + 1..]
  {
    var d := c[..k] + c[k + 1..];
    TicketAt(c, k);
    forall i: nat | i < |d| ensures Tickets(d)[i] == (Tickets(c)[..k] + Tickets(c)[k + 1..])[i] {
      TicketAt(d, i);
      TicketAt(c, if i < k then i else i + 1);
    }
  }

  lemma {:induction false} TicketsSnoc(c: seq<Node>, n: Node)
    ensures Tickets(c + [n]) == Tickets(c) + [n.ticket]
  {
  }

  ghost function Elements(c: seq<Node>): set<Node>
  {
    set n | n in c
  }

  /** Taking the record at position j off what is left of a wait list. */
  lemma {:induction false} TakeOne(c: seq<Node>, j: nat)
    requires j < |c|
    ensures c[j..][0] == c[j] && c[j..][1..] == c[j + 1..]
    ensures Elements(c[..j + 1]) == Elements(c[..j]) + {c[j]}
  {
  }

  /** A wait list is what is left of an earlier one after its first records were marked. */
  ghost predicate PassedOn(was: seq<Node>, before: set<Node>, waiters: seq<Node>, marked: set<Node>)
  {
    && |waiters| <= |was| && waiters == was[|was| - |waiters|..]
    && marked == before + Elements(was[..|was| - |waiters|])
  }

  lemma {:induction false} PassOne(was: seq<Node>, before: set<Node>, waiters: seq<Node>, marked: set<Node>)
    requires PassedOn(was, before, waiters, marked) && waiters != []
    ensures PassedOn(was, before, waiters[1..], marked + {waiters[0]})
  {
    TakeOne(was, |was| - |waiters|);
  }

  lemma {:induction false} FirstUp(s: State)
    requires Inv(s) && s.queue != []
    ensures Inv(One(s)) && One(s) == s.(queue := Without(s.queue, s.queue[0]), up := s.up + {s.queue[0]})
  {
    WithoutAt(s.queue, 0);
    assert s.queue[..0] + s.queue[1..] == s.queue[1..];
    OneKeeps(s);
  }

  lemma {:induction false} Within(was: seq<Node>, waiters: seq<Node>)
    requires |waiters| <= |was| && waiters == was[|was| - |waiters|..]
    ensures forall n <- waiters :: n in was
  {
  }

  class Semaphore {
    var count: nat
    const waitList: Node
    ghost var waiters: seq<Node>
    ghost var marked: set<Node>
    ghost var spec: State

    /** The wait list holds the records of the tickets that wait, in order. */
    ghost predicate Queued()
      reads this, waitList, waiters
    {
      Ring(waitList, waiters) && Tickets(waiters) == spec.queue && forall n <- waiters :: !n.up
    }

    /** Records that are marked are off the list and belong to tickets that are up, each to its own. */
    ghost predicate Marked()
      reads this, marked
    {
      && (forall n <- marked :: n.up && n.ticket in spec.up && n != waitList && n !in waiters)
      && (forall m <- marked, n <- marked :: m.ticket == n.ticket ==> m == n)
    }

    ghost predicate Valid()
      reads this, waitList, waiters, marked
    {
      Inv(spec) && count == spec.count && Queued() && Marked()
    }

    /** A record of a task that is inside a down, waiting or marked but not yet returned. */
    ghost predicate Holds(w: Node)
      reads this
    {
      w in waiters || w in marked
    }

    /** cdcm_sem_init */
    constructor (n: nat)
      ensures Valid() && spec == Init(n) && waiters == [] && marked == {}
      ensures fresh(waitList)
    {
      var head := new Node(0);
      InitListHead(head);
      waitList, count := head, n;
      waiters, marked, spec := [], {}, Init(n);
    }

    /** list_del of a waiter's record, by its position. */
    method Unlink(w: Node, ghost k: nat)
      requires Valid() && k < |waiters| && waiters[k] == w
      modifies this`waiters, this`spec, waitList`next, waitList`prev, waiters`next, waiters`prev
      ensures waiters == old(waiters)[..k] + old(waiters)[k + 1..] && count == old(count) && marked == old(marked)
      ensures spec == old(spec).(queue := Without(old(spec).queue, w.ticket))
      ensures Valid() && w !in waiters && w != waitList && !w.up
    {
      Neighbours(waitList, waiters, k);
      DeletedIsOff(waitList, waiters, k);
      WithoutAt(spec.queue, k);
      WithoutKeeps(spec.queue, k, |spec.kinds|);
      TicketsWithout(waiters, k);
      ListDel(w, waitList, waiters, k);
      waiters := waiters[..k] + waiters[k + 1..];
      spec := spec.(queue := Without(spec.queue, w.ticket));
    }

    /** The head of the wait loop in __cdcm_down_common, reached with the lock held. */
    method LoopHead(w: Node, kind: Kind, signal: bool, jiffies: int, ghost k: nat) returns (r: Result)
      requires Valid() && k < |waiters| && waiters[k] == w
      modifies this`waiters, this`spec, waitList`next, waitList`prev, waiters`next, waiters`prev
      ensures Valid() && (spec, r) == Settle(old(spec), w.ticket, kind, signal, jiffies)
      ensures marked == old(marked) && (if r == Asleep then waiters == old(waiters) else w !in waiters)
    {
      r := Asleep;
      if kind.Interruptible? && signal {
        Unlink(w, k);
        r := Aborted;
      } else if kind.Timed? && jiffies <= 0 {
        Unlink(w, k);
        r := TimedOut;
      }
    }

    method Enqueue(w: Node)
      requires Ring(waitList, waiters) && w != waitList && w !in waiters
      modifies waitList`next, waitList`prev, waiters`next, waiters`prev, w`next, w`prev, w`up
      ensures Ring(waitList, waiters + [w]) && !w.up
    {
      RingCut(waitList, waiters, |waiters|);
      ListAddTail(w, waitList, waiters);
      w.up := false;
    }

    /** A new record at the end of the wait list. */
    method Join(w: Node, kind: Kind)
      requires Valid() && count == 0 && w != waitList && w !in waiters && w !in marked && w.ticket == |spec.kinds|
      modifies this`waiters, this`spec, waitList`next, waitList`prev, waiters`next, waiters`prev, w`next, w`prev, w`up
      ensures Valid() && waiters == old(waiters) + [w] && marked == old(marked)
      ensures spec == old(spec).(queue := old(spec).queue + [w.ticket], kinds := old(spec).kinds + [kind])
    {
      JoinKeeps(spec, kind);
      TicketsSnoc(waiters, w);
      Enqueue(w);
      waiters := waiters + [w];
      spec := spec.(queue := spec.queue + [w.ticket], kinds := spec.kinds + [kind]);
    }

    /** cdcm_down, cdcm_down_interruptible and cdcm_down_timeout, up to the point where the task
        returns or gives up the lock to sleep.  The record is the one on the task's stack; its
        ticket number exists only to tell it apart. */
    method Down(w: Node, kind: Kind, signal: bool, jiffies: int) returns (r: Result)
      requires Valid() && w != waitList && !Holds(w) && w.ticket == |spec.kinds|
      modifies this, waitList, waiters, w`next, w`prev, w`up
      ensures Valid() && (spec, r) == Next(old(spec), Step.Down(kind, signal, jiffies))
      ensures marked == old(marked) && (r == Asleep <==> w in waiters)
    {
      if count > 0 {
        count := count - 1;
        spec := spec.(count := spec.count - 1);
        r := Got;
      } else {
        Join(w, kind);
        r := LoopHead(w, kind, signal, jiffies, |waiters| - 1);
      }
    }

    /** The rest of the wait loop: the task runs again, with the lock. */
    method Resume(w: Node, kind: Kind, signal: bool, jiffies: int) returns (r: Result)
      requires Valid() && Holds(w) && w.ticket < |spec.kinds| && spec.kinds[w.ticket] == kind
      modifies this, waitList, waiters
      ensures Valid() && (spec, r) == Next(old(spec), Step.Resume(w.ticket, signal, jiffies))
      ensures r == Asleep <==> Holds(w)
      ensures marked == old(marked) - {w}
    {
      if w.up {
        marked := marked - {w};
        spec := spec.(up := spec.up - {w.ticket});
        r := Got;
      } else {
        ghost var k: nat :| k < |waiters| && waiters[k] == w;
        TicketAt(waiters, k);
        r := LoopHead(w, kind, signal, jiffies, k);
      }
    }

    /** cdcm_down_trylock */
    method Trylock() returns (failed: bool)
      requires Valid()
      modifies this
      ensures Valid() && spec == Next(old(spec), Step.Trylock).0 && failed == (Next(old(spec), Step.Trylock).1 != Got)
      ensures waiters == old(waiters) && marked == old(marked)
    {
      var left := count - 1;
      if left >= 0 {
        count := left;
        spec := spec.(count := left);
      }
      failed := left < 0;
    }

    /** __cdcm_up_waiter: the first record is unlinked and marked. */
    method UpWaiter()
      requires Valid() && waiters != []
      modifies this`waiters, this`marked, this`spec, waitList, waiters
      ensures Valid() && spec == One(old(spec)) && waiters == old(waiters)[1..] && count == old(count)
      ensures marked == old(marked) + {old(waiters)[0]}
    {
      RingCut(waitList, waiters, 0);
      assert From(waitList, waiters, 0)[0] == waiters[0];
      TicketAt(waiters, 0);
      FirstUp(spec);
      assert waiters[..0] + waiters[1..] == waiters[1..];
      var waiter := waitList.next;
      ghost var s := spec;
      Unlink(waiter, 0);
      Mark(waiter, s);
    }

    method Mark(w: Node, ghost s: State)
      requires Valid() && w !in waiters && w != waitList && w.ticket !in spec.up
      requires Inv(One(s)) && One(s) == spec.(up := spec.up + {w.ticket})
      modifies this`marked, this`spec, w`up
      ensures Valid() && spec == One(s) && waiters == old(waiters) && marked == old(marked) + {w}
    {
      w.up := true;
      marked := marked + {w};
      spec := One(s);
    }

    /** __cdcm_up */
    method UpOne()
      requires Valid()
      modifies this, waitList, waiters
      ensures Valid() && spec == One(old(spec))
      ensures old(waiters) == [] ==> waiters == [] && marked == old(marked)
      ensures old(waiters) != [] ==> waiters == old(waiters)[1..] && marked == old(marked) + {old(waiters)[0]}
    {
      var empty := ListEmpty(waitList, waiters);
      OneKeeps(spec);
      if empty {
        count := count + 1;
        spec := One(spec);
      } else {
        UpWaiter();
      }
    }

    /** ssignaln, and ssignal for a count of one. */
    method Signal(n: int)
      requires Valid()
      modifies this, waitList, waiters
      ensures Valid() && spec == Next(old(spec), Up(if n < 0 then 0 else n)).0
      ensures Passed(old(waiters), old(marked))
    {
      var i := 0;
      while i < n
        invariant Valid() && 0 <= i && (i <= n || i == 0) && spec == Many(old(spec), i)
        invariant Passed(old(waiters), old(marked))
      {
        Within(old(waiters), waiters);
        UpAnother(old(waiters), old(marked), old(spec), i);
        i := i + 1;
      }
    }

    ghost predicate Passed(was: seq<Node>, before: set<Node>)
      reads this
    {
      PassedOn(was, before, waiters, marked)
    }

    /** One turn of each loop. */
    method UpAnother(ghost was: seq<Node>, ghost before: set<Node>, ghost s: State, ghost i: nat)
      requires Valid() && Passed(was, before) && spec == Many(s, i)
      modifies this, waitList, waiters
      ensures Valid() && Passed(was, before) && spec == Many(s, i + 1)
    {
      if waiters != [] { PassOne(was, before, waiters, marked); }
      UpOne();
    }

    method WakeAnother(ghost was: seq<Node>, ghost before: set<Node>, ghost s: State, ghost i: nat)
      requires Valid() && Passed(was, before) && spec == Many(s, i) && waiters != []
      modifies this, waitList, waiters
      ensures Valid() && Passed(was, before) && spec == Many(s, i + 1) && |waiters| == |old(waiters)| - 1
    {
      PassOne(was, before, waiters, marked);
      UpWaiter();
    }

    /** The loop of __sreset. */
    method WakeAll()
      requires Valid()
      modifies this, waitList, waiters
      ensures Valid() && spec == Many(old(spec), |old(waiters)|) && Passed(old(waiters), old(marked))
    {
      var n := ListCapacity(waitList, waiters);
      for i := 0 to n
        invariant Valid() && spec == Many(old(spec), i) && |waiters| == n - i
        invariant Passed(old(waiters), old(marked))
      {
        Within(old(waiters), waiters);
        WakeAnother(old(waiters), old(marked), old(spec), i);
      }
    }

    /** __sreset */
    method Reset()
      requires Valid()
      modifies this, waitList, waiters
      ensures Valid() && spec == Next(old(spec), Step.Reset).0 && Level(spec) == 0
      ensures Passed(old(waiters), old(marked))
    {
      ManyMeans(spec, |spec.queue|);
      if count == 0 {
        WakeAll();
      } else {
        count := 0;
        spec := spec.(count := 0);
      }
    }

    /** __scount */
    method Scount() returns (c: int)
      requires Valid()
      ensures c == Level(spec)
    {
      if count > 0 {
        c := count;
      } else {
        var n := ListCapacity(waitList, waiters);
        c := -1 * (n as int);
      }
    }
  }
}
