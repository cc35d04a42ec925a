/** The trigger tables of ctr/driver/ctrdrvr-pci.c: which clients are connected to which slots, slots
    made on demand for CTIM events, and the allocation of contiguous slots to PTIM objects. */
module TriggerTable {
  import opened Bits
  import Masking

  const TABLE_SIZE := 2048
  const SOURCES := 14
  const COUNTERS := 9
  const PTIM_OBJECTS := 2048

  /** The class of a connection; a free slot has the first one, which is zero. */
  datatype Class = Hard | Ctim | Ptim

  /** One entry of a module's tables.  Client masks have one bit for each client. */
  datatype Slot = Slot(eqpNum: nat, cls: Class, clients: nat)

  const FREE := Slot(0, Hard, 0)

  datatype Module = Module(slots: seq<Slot>, hard: seq<nat>)

  datatype Binding = Binding(eqpNum: nat, modIndex: nat, size: nat, start: nat)

  datatype Status = Ok | NoSuchDevice | NoMemory | Busy | Invalid

  predicate Matches(s: Slot, eqpNum: nat, cls: Class)
  {
    s.eqpNum == eqpNum && s.cls == cls
  }

  // ----- connecting and disconnecting, on one slot -----

  function JoinMask(m: nat, c: nat): nat
  {
    Or(m, Pow2(c))
  }

  function LeaveMask(m: nat, c: nat): nat
  {
    AndNot(m, Pow2(c))
  }

  lemma {:induction false} JoinMaskBit(m: nat, c: nat, d: nat)
    ensures Bit(JoinMask(m, c), d) == (d == c || Bit(m, d)) && JoinMask(m, c) != 0
  {
    BitOr(m, Pow2(c), d);
    BitPow2(c, d);
  }

  lemma {:induction false} LeaveMaskBit(m: nat, c: nat, d: nat)
    ensures Bit(LeaveMask(m, c), d) == (d != c && Bit(m, d))
  {
    BitAndNot(m, Pow2(c), d);
    BitPow2(c, d);
  }

  function Join(s: Slot, c: nat): Slot
  {
    s.(clients := JoinMask(s.clients, c))
  }

  /** A CTIM slot is given back when its last client leaves. */
  function Leave(s: Slot, c: nat): Slot
  {
    if !Bit(s.clients, c) then s
    else if LeaveMask(s.clients, c) == 0 && s.cls == Ctim then FREE
    else s.(clients := LeaveMask(s.clients, c))
  }

  /** A free slot has no class and no clients; an occupied one is CTIM with clients, or PTIM. */
  predicate SlotOk(s: Slot)
  {
    if s.eqpNum == 0 then s == FREE else s.cls == Ptim || (s.cls == Ctim && s.clients != 0)
  }

  lemma {:induction false} LeaveOk(s: Slot, c: nat, d: nat)
    requires SlotOk(s)
    ensures SlotOk(Leave(s, c)) && Bit(Leave(s, c).clients, d) == (d != c && Bit(s.clients, d))
    ensures Leave(s, c) == FREE || Matches(Leave(s, c), s.eqpNum, s.cls)
    ensures s.cls == Ptim ==> Matches(Leave(s, c), s.eqpNum, s.cls)
  {
    LeaveMaskBit(s.clients, c, d);
    if d == c && !Bit(s.clients, c) {
    } else if Leave(s, c) == FREE { BitZero(d); }
  }

  /** A slot that a client leaves: it loses that connection and no other, and is given back exactly if it was a CTIM
      slot with this client only. */
  ghost predicate SlotLoses(was: Slot, now: Slot, leaves: bool, c: nat)
  {
    && (forall d: nat :: Bit(now.clients, d) <==> Bit(was.clients, d) && !(leaves && d == c))
    && if leaves && was.cls == Ctim &&
        OnlyClient(was.clients, c) then now == FREE else Matches(now, was.eqpNum, was.cls)
  }

  ghost predicate OnlyClient(m: nat, c: nat)
  {
    forall d: nat :: Bit(m, d) <==> d == c
  }

  lemma {:induction false} LeaveMeans(s: Slot, c: nat)
    requires SlotOk(s)
    ensures SlotLoses(s, Leave(s, c), true, c)
  {
    forall d: nat { LeaveOk(s, c, d); }
    forall d: nat { LeaveMaskBit(s.clients, c, d); }
    var left := LeaveMask(s.clients, c);
    if left == 0 {
      forall d: nat { BitZero(d); }
    } else {
      Masking.Pow2Exceeds(left);
      var d := SomeBit(left, left);
    }
  }

  // ----- one module's table -----

  /** At most one CTIM slot for each event. */
  ghost predicate CtimUnique(slots: seq<Slot>)
  {
    forall i, j | 0 <= i < j < |slots| && slots[i].cls == Ctim && slots[j].cls == Ctim ::
      slots[i].eqpNum != slots[j].eqpNum
  }

  ghost predicate TableOk(slots: seq<Slot>)
  {
    |slots| == TABLE_SIZE && (forall i | 0 <= i < |slots| :: SlotOk(slots[i])) && CtimUnique(slots)
  }

  ghost predicate ModuleOk(m: Module)
  {
    TableOk(m.slots) && |m.hard| == SOURCES
  }

  /** Every slot has kept its owner, or a CTIM slot has been given back. */
  ghost predicate Kept(was: seq<Slot>, now: seq<Slot>)
  {
    |now| == |was| && forall i | 0 <= i < |was| :: SlotOk(now[i]) && SlotKept(was[i], now[i])
  }

  predicate SlotKept(was: Slot, now: Slot)
  {
    Matches(now, was.eqpNum, was.cls) || (was.cls == Ctim && now == FREE)
  }

  // ----- who owns what -----

  predicate Covers(p: Binding, m: nat, i: nat)
  {
    p.modIndex == m && p.start <= i < p.start + p.size
  }

  ghost predicate BindingOk(p: Binding, modules: seq<Module>)
  {
    p.eqpNum != 0 && p.modIndex < |modules| && p.start + p.size <= TABLE_SIZE
  }

  /** No two PTIM objects have the same number. */
  ghost predicate Registered(ptims: seq<Binding>)
  {
    forall k, l | 0 <= k < l < |ptims| :: ptims[k].eqpNum != ptims[l].eqpNum
  }

  /** The slots of every registered PTIM object carry its number. */
  ghost predicate Owns(modules: seq<Module>, ptims: seq<Binding>)
  {
    forall k, i: nat | 0 <= k < |ptims| && ptims[k].modIndex < |modules| && i < |modules[ptims[k].modIndex].slots|
                       && Covers(ptims[k], ptims[k].modIndex, i) ::
      Matches(modules[ptims[k].modIndex].slots[i], ptims[k].eqpNum, Ptim)
  }

  /** And a PTIM slot belongs to a registered object. */
  ghost predicate Owned(modules: seq<Module>, ptims: seq<Binding>)
  {
    forall m: nat, i: nat | m < |modules| && i < |modules[m].slots| && modules[m].slots[i].cls == Ptim ::
      HasOwner(ptims, m, i)
  }

  ghost predicate HasOwner(ptims: seq<Binding>, m: nat, i: nat)
  {
    exists k :: 0 <= k < |ptims| && Covers(ptims[k], m, i)
  }

  ghost predicate DriverOk(modules: seq<Module>, ptims: seq<Binding>)
  {
    && (forall m | 0 <= m < |modules| :: ModuleOk(modules[m]))
    && (forall k | 0 <= k < |ptims| :: BindingOk(ptims[k], modules))
    && Registered(ptims) && Owns(modules, ptims) && Owned(modules, ptims)
  }

  /** So no slot is in the ranges of two PTIM objects. */
  lemma {:induction false} RangesDisjoint(modules: seq<Module>, ptims: seq<Binding>, k: nat, l: nat, m: nat, i: nat)
    requires DriverOk(modules, ptims) && k < |ptims| && l < |ptims| && m < |modules|
    requires Covers(ptims[k], m, i) && Covers(ptims[l], m, i)
    ensures k == l
  {
  }

  /** A PTIM object owns exactly the slots of its range. */
  lemma {:induction false} OwnsExactly(modules: seq<Module>, ptims: seq<Binding>, k: nat, m: nat, i: nat)
    requires DriverOk(modules, ptims) && k < |ptims| && m < |modules| && i < TABLE_SIZE
    ensures ModuleOk(modules[m]) && (Matches(modules[m].slots[i], ptims[k].eqpNum, Ptim) <==> Covers(ptims[k], m, i))
  {
  }

  /** Changes to one table that leave every slot with its owner keep the driver sound. */
  lemma {:induction false} KeptDriver(modules: seq<Module>, ptims: seq<Binding>, m: nat, now: seq<Slot>)
    requires DriverOk(modules, ptims) && m < |modules| && Kept(modules[m].slots, now)
    ensures DriverOk(modules[m := modules[m].(slots := now)], ptims)
  {
  }

  // ----- the loops over a table -----

  /** The loop of Connect for a PTIM object: the client joins every slot of the object. */
  method JoinAll(slots: seq<Slot>, eqpNum: nat, cls: Class, c: nat) returns (now: seq<Slot>, count: nat)
    ensures |now| == |slots|
    ensures forall i | 0 <= i < |slots| ::
            now[i] == if Matches(slots[i], eqpNum, cls) then Join(slots[i], c) else slots[i]
    ensures count > 0 <==> exists i :: 0 <= i < |slots| && Matches(slots[i], eqpNum, cls)
  {
    now, count := slots, 0;
    for i := 0 to |slots|
      invariant |now| == |slots|
      invariant forall j | 0 <= j < i ::
                now[j] == if Matches(slots[j], eqpNum, cls) then Join(slots[j], c) else slots[j]
      invariant forall j | i <= j < |slots| :: now[j] == slots[j]
      invariant count > 0 <==> exists j :: 0 <= j < i && Matches(slots[j], eqpNum, cls)
    {
      if Matches(now[i], eqpNum, cls) {
        count := count + 1;
        now := now[i := Join(now[i], c)];
      }
    }
  }

  /** The first slot that satisfies a condition. */
  ghost predicate IsFirst(slots: seq<Slot>, i: nat, p: Slot -> bool)
  {
    i < |slots| && p(slots[i]) && forall j | 0 <= j < i :: !p(slots[j])
  }

  ghost predicate None(slots: seq<Slot>, p: Slot -> bool)
  {
    forall j | 0 <= j < |slots| :: !p(slots[j])
  }

  method FindFirst(slots: seq<Slot>, p: Slot -> bool) returns (found: bool, i: nat)
    ensures if found then IsFirst(slots, i, p) else None(slots, p)
  {
    i := 0;
    while i < |slots|
      invariant i <= |slots| && forall j | 0 <= j < i :: !p(slots[j])
    {
      if p(slots[i]) { return true, i; }
      i := i + 1;
    }
    found := false;
  }

  predicate Vacant(s: Slot)
  {
    s.eqpNum == 0
  }

  /** A run of n free slots. */
  ghost predicate FreeRun(slots: seq<Slot>, at: nat, n: nat)
  {
    at + n <= |slots| && forall i | at <= i < at + n :: Vacant(slots[i])
  }

  /** How many free slots the search asks for; an object of no slots still asks for one. */
  function Wanted(size: nat): (n: nat)
    ensures n >= 1
  {
    if size == 0 then 1 else size
  }

  /** The search of CREATE_PTIM_OBJECT: the lowest run of free slots that is long enough. */
  method FirstFit(slots: seq<Slot>, size: nat) returns (found: bool, start: nat)
    ensures found ==> FreeRun(slots, start, Wanted(size))
    ensures found ==> forall j: nat | j < start :: !FreeRun(slots, j, Wanted(size))
    ensures !found ==> forall j: nat :: !FreeRun(slots, j, Wanted(size))
  {
    var n: nat := 0;
    found, start := false, 0;
    ghost var want := Wanted(size);
    for i := 0 to |slots|
      invariant n < want && n <= i && (n > 0 ==> start == i - n)
      invariant forall j | i - n <= j < i :: Vacant(slots[j])
      invariant i - n > 0 ==> !Vacant(slots[i - n - 1])
      invariant forall j: nat | j + want <= i :: !FreeRun(slots, j, want)
    {
      if Vacant(slots[i]) {
        if n == 0 { start := i; }
        n := n + 1;
        if n >= size {
          RunsBlocked(slots, start, i, want);
          found := true;
          return;
        }
        LongerBlocked(slots, i, n, want);
      } else {
        RunHits(slots, i, want);
        n := 0;
      }
    }
  }

  /** A run that would end at a slot that is taken is no run. */
  lemma {:induction false} RunHits(slots: seq<Slot>, i: nat, want: nat)
    requires i < |slots| && !Vacant(slots[i]) && want >= 1
    ensures forall j: nat | j + want == i + 1 :: !FreeRun(slots, j, want)
  {
  }

  lemma {:induction false} LongerBlocked(slots: seq<Slot>, i: nat, n: nat, want: nat)
    requires i < |slots| && n <= i + 1 && n < want
    requires i + 1 - n > 0 ==> !Vacant(slots[i - n])
    ensures forall j: nat | j + want == i + 1 :: !FreeRun(slots, j, want)
  {
  }

  lemma {:induction false} RunsBlocked(slots: seq<Slot>, start: nat, i: nat, want: nat)
    requires i < |slots| && start + want == i + 1 && (start > 0 ==> !Vacant(slots[start - 1]))
    requires forall j: nat | j + want <= i :: !FreeRun(slots, j, want)
    ensures forall j: nat | j < start :: !FreeRun(slots, j, want)
  {
  }

  /** The loop of Connect for hardware sources. */
  method JoinSources(was: seq<nat>, sources: nat, c: nat) returns (hard: seq<nat>, count: nat)
    ensures |hard| == |was| && (count > 0 <==> exists l: nat :: l < |was| && Bit(sources, l))
    ensures forall l: nat | l < |was| :: hard[l] == if Bit(sources, l) then JoinMask(was[l], c) else was[l]
  {
    hard, count := was, 0;
    for j := 0 to |was|
      invariant |hard| == |was| && (count > 0 <==> exists l: nat :: l < j && Bit(sources, l))
      invariant forall l: nat | l < |was| :: hard[l] == if l < j && Bit(sources, l) then JoinMask(was[l], c) else was[l]
    {
      Masking.AndPow2(sources, j);
      if And(sources, Pow2(j)) != 0 {
        count := count + 1;
        hard := hard[j := JoinMask(hard[j], c)];
      }
    }
  }

  /** DisConnectOne on a timing object. */
  method LeaveOne(s: Slot, c: nat) returns (now: Slot)
    ensures now == Leave(s, c)
  {
    now := s;
    Masking.AndPow2(s.clients, c);
    if And(s.clients, Pow2(c)) != 0 {
      now := now.(clients := LeaveMask(s.clients, c));
      if now.clients == 0 && now.cls == Ctim { now := now.(eqpNum := 0, cls := Hard); }
    }
  }

  /** The loop of DisConnect: the client leaves the slots of one object. */
  method LeaveObject(slots: seq<Slot>, eqpNum: nat, cls: Class, c: nat) returns (now: seq<Slot>)
    ensures |now| == |slots|
    ensures forall i | 0 <= i < |slots| ::
            now[i] == if Matches(slots[i], eqpNum, cls) then Leave(slots[i], c) else slots[i]
  {
    now := slots;
    for i := 0 to |slots|
      invariant |now| == |slots|
      invariant forall j | 0 <= j < i ::
                now[j] == if Matches(slots[j], eqpNum, cls) then Leave(slots[j], c) else slots[j]
      invariant forall j | i <= j < |slots| :: now[j] == slots[j]
    {
      if Matches(now[i], eqpNum, cls) {
        var left := LeaveOne(now[i], c);
        now := now[i := left];
      }
    }
  }

  /** The first loop of DisConnectAll: the client leaves every occupied slot. */
  method LeaveEvery(slots: seq<Slot>, c: nat) returns (now: seq<Slot>)
    requires forall i | 0 <= i < |slots| :: SlotOk(slots[i])
    ensures |now| == |slots| && forall i | 0 <= i < |slots| :: now[i] == Leave(slots[i], c)
  {
    now := slots;
    for i := 0 to |slots|
      invariant |now| == |slots|
      invariant forall j | 0 <= j < i :: now[j] == Leave(slots[j], c)
      invariant forall j | i <= j < |slots| :: now[j] == slots[j]
    {
      if now[i].eqpNum != 0 {
        var left := LeaveOne(now[i], c);
        now := now[i := left];
      } else {
        BitZero(c);
      }
    }
  }

  /** The second one: and every hardware source. */
  method LeaveSources(was: seq<nat>, c: nat) returns (hard: seq<nat>)
    ensures |hard| == |was| && forall j | 0 <= j < |was| :: hard[j] == LeaveMask(was[j], c)
  {
    hard := was;
    for i := 0 to |was|
      invariant |hard| == |was|
      invariant forall j | 0 <= j < |was| :: hard[j] == if j < i then LeaveMask(was[j], c) else was[j]
    {
      if hard[i] != 0 { hard := hard[i := LeaveMask(hard[i], c)]; }
    }
  }

  /** The loop that claims a run of slots for a PTIM object. */
  method Claim(slots: seq<Slot>, start: nat, size: nat, eqpNum: nat) returns (now: seq<Slot>)
    requires start + size <= |slots|
    ensures Claimed(slots, now, start, size, eqpNum)
  {
    now := slots;
    for i := start to start + size
      invariant |now| == |slots|
      invariant forall j | 0 <= j < |slots| ::
                now[j] == if start <= j < i then slots[j].(eqpNum := eqpNum, cls := Ptim) else slots[j]
    {
      now := now[i := now[i].(eqpNum := eqpNum, cls := Ptim)];
    }
  }

  ghost predicate Claimed(was: seq<Slot>, now: seq<Slot>, start: nat, size: nat, eqpNum: nat)
  {
    && |now| == |was|
    && forall j | 0 <= j < |was| ::
         now[j] == if start <= j < start + size then was[j].(eqpNum := eqpNum, cls := Ptim) else was[j]
  }

  /** The first loop of DESTROY_PTIM_OBJECT: is there a slot, and is any of them in use? */
  method CheckUse(slots: seq<Slot>, eqpNum: nat) returns (found: bool, busy: bool)
    ensures busy <==> InUse(slots, eqpNum)
    ensures !busy ==> (found <==> exists i :: 0 <= i < |slots| && Matches(slots[i], eqpNum, Ptim))
  {
    found, busy := false, false;
    for i := 0 to |slots|
      invariant found <==> exists j :: 0 <= j < i && Matches(slots[j], eqpNum, Ptim)
      invariant forall j | 0 <= j < i && Matches(slots[j], eqpNum, Ptim) :: slots[j].clients == 0
    {
      if Matches(slots[i], eqpNum, Ptim) {
        if slots[i].clients != 0 { return found, true; }
        found := true;
      }
    }
  }

  ghost predicate InUse(slots: seq<Slot>, eqpNum: nat)
  {
    exists i :: 0 <= i < |slots| && Matches(slots[i], eqpNum, Ptim) && slots[i].clients != 0
  }

  /** The second one: the slots are given back. */
  method Release(slots: seq<Slot>, eqpNum: nat) returns (now: seq<Slot>)
    ensures |now| == |slots|
    ensures forall j | 0 <= j < |slots| ::
              now[j] == if Matches(slots[j], eqpNum, Ptim) then slots[j].(eqpNum := 0, cls := Hard) else slots[j]
  {
    now := slots;
    for i := 0 to |slots|
      invariant |now| == |slots|
      invariant forall j | 0 <= j < i ::
                  now[j] == if Matches(slots[j], eqpNum, Ptim) then slots[j].(eqpNum := 0, cls := Hard) else slots[j]
      invariant forall j | i <= j < |slots| :: now[j] == slots[j]
    {
      if Matches(now[i], eqpNum, Ptim) { now := now[i := now[i].(eqpNum := 0, cls := Hard)]; }
    }
  }

  /** The third one: the binding's place is taken by the last one. */
  function Unregistered(ptims: seq<Binding>, k: nat): (r: seq<Binding>)
    requires k < |ptims|
    ensures |r| == |ptims| - 1
  {
    ptims[k := ptims[|ptims| - 1]][..|ptims| - 1]
  }

  method FindBinding(ptims: seq<Binding>, eqpNum: nat) returns (found: bool, k: nat)
    ensures found ==> k < |ptims| && ptims[k].eqpNum == eqpNum
    ensures !found ==> forall l | 0 <= l < |ptims| :: ptims[l].eqpNum != eqpNum
  {
    k := 0;
    while k < |ptims|
      invariant k <= |ptims| && forall l | 0 <= l < k :: ptims[l].eqpNum != eqpNum
    {
      if ptims[k].eqpNum == eqpNum { return true, k; }
      k := k + 1;
    }
    found := false;
  }

  // ----- the driver -----

  /** All tables but one are as they were. */
  ghost predicate OnlyTable(was: seq<Module>, now: seq<Module>, m: nat)
  {
    && |now| == |was| && (forall n | 0 <= n < |was| && n != m :: now[n] == was[n])
    && (m < |was| ==> now[m].hard == was[m].hard)
  }

  /** The client has joined exactly the slots of an object. */
  ghost predicate Joined(was: seq<Slot>, now: seq<Slot>, eqpNum: nat, cls: Class, c: nat)
  {
    |now| == |was|
    && forall i | 0 <= i < |was| :: now[i] == if Matches(was[i], eqpNum, cls) then Join(was[i], c) else was[i]
  }

  /** A slot with the same owner, and one more client if it is to be joined. */
  ghost predicate SlotGains(was: Slot, now: Slot, joins: bool, c: nat)
  {
    && Matches(now, was.eqpNum, was.cls)
    && forall d: nat :: Bit(now.clients, d) <==> Bit(was.clients, d) || (joins && d == c)
  }

  /** The client is now connected to every slot of an object; all other connections are as they were. */
  ghost predicate Gains(was: seq<Slot>, now: seq<Slot>, eqpNum: nat, cls: Class, c: nat)
  {
    |now| == |was| && forall i | 0 <= i < |was| :: SlotGains(was[i], now[i], Matches(was[i], eqpNum, cls), c)
  }

  lemma {:induction false} JoinedMeans(was: seq<Slot>, now: seq<Slot>, eqpNum: nat, cls: Class, c: nat)
    requires Joined(was, now, eqpNum, cls, c)
    ensures Gains(was, now, eqpNum, cls, c)
  {
    forall i | 0 <= i < |was| ensures SlotGains(was[i], now[i], Matches(was[i], eqpNum, cls), c) {
      forall d: nat { JoinMaskBit(was[i].clients, c, d); }
    }
  }

  /** The first free slot has been made the event's, with this client only. */
  ghost predicate Made(was: seq<Slot>, now: seq<Slot>, i: nat, eqpNum: nat, c: nat)
  {
    && IsFirst(was, i, Vacant) && |now| == |was| && (forall j | 0 <= j < |was| && j != i :: now[j] == was[j])
    && Matches(now[i], eqpNum, Ctim) && forall d: nat :: Bit(now[i].clients, d) <==> d == c
  }

  /** The client is now connected to these sources; all other connections are as they were. */
  ghost predicate SourcesGain(was: seq<nat>, now: seq<nat>, sources: nat, c: nat)
  {
    |now| == |was| && forall j: nat, d: nat | j < |was| ::
      Bit(now[j], d) <==> Bit(was[j], d) || (d == c && Bit(sources, j))
  }

  /** The client is no longer connected to any slot of an object; all other connections are as they were. */
  ghost predicate Loses(was: seq<Slot>, now: seq<Slot>, eqpNum: nat, cls: Class, c: nat)
  {
    |now| == |was| && forall i | 0 <= i < |was| :: SlotLoses(was[i], now[i], Matches(was[i], eqpNum, cls), c)
  }

  lemma {:induction false} LeftMeans(was: seq<Slot>, now: seq<Slot>, eqpNum: nat, cls: Class, c: nat)
    requires TableOk(was) && |now| == |was|
    requires forall i | 0 <= i < |was| :: now[i] == if Matches(was[i], eqpNum, cls) then Leave(was[i], c) else was[i]
    ensures Loses(was, now, eqpNum, cls, c)
  {
    forall i | 0 <= i < |was| ensures SlotLoses(was[i], now[i], Matches(was[i], eqpNum, cls), c) {
      if Matches(was[i], eqpNum, cls) { LeaveMeans(was[i], c); }
    }
  }

  lemma {:induction false} JoinedKept(was: seq<Slot>, now: seq<Slot>, eqpNum: nat, cls: Class, c: nat)
    requires TableOk(was) && Joined(was, now, eqpNum, cls, c) && eqpNum != 0
    ensures Kept(was, now)
  {
  }

  // ----- who may be reached -----

  /** A module has not gained a connection of client d. */
  ghost predicate NoGain(was: Module, now: Module, d: nat)
  {
    && |now.slots| == |was.slots| && |now.hard| == |was.hard|
    && (forall i | 0 <= i < |was.slots| :: Bit(now.slots[i].clients, d) ==> Bit(was.slots[i].clients, d))
    && (forall j | 0 <= j < |was.hard| :: Bit(now.hard[j], d) ==> Bit(was.hard[j], d))
  }

  /** No client but c has gained a connection. */
  ghost predicate OnlyFor(was: seq<Module>, now: seq<Module>, c: nat)
  {
    |now| == |was| && forall m, d: nat | 0 <= m < |was| && d != c :: NoGain(was[m], now[m], d)
  }

  lemma {:induction false} OnlyForOne(was: seq<Module>, now: seq<Module>, m: nat, c: nat)
    requires |now| == |was| && m < |was| && forall n | 0 <= n < |was| && n != m :: now[n] == was[n]
    requires forall d: nat | d != c :: NoGain(was[m], now[m], d)
    ensures OnlyFor(was, now, c)
  {
    forall n, d: nat | 0 <= n < |was| && d != c ensures NoGain(was[n], now[n], d) {
      if n != m { assert now[n] == was[n]; }
    }
  }

  lemma {:induction false} JoinedGains(was: Module, now: Module, eqpNum: nat, cls: Class, c: nat, d: nat)
    requires Joined(was.slots, now.slots, eqpNum, cls, c) && now.hard == was.hard && d != c
    ensures NoGain(was, now, d)
  {
    forall i | 0 <= i < |was.slots| ensures Bit(now.slots[i].clients, d) ==> Bit(was.slots[i].clients, d) {
      JoinMaskBit(was.slots[i].clients, c, d);
    }
  }

  lemma {:induction false} JoinedOnlyFor(was: seq<Module>, now: seq<Module>, m: nat, eqpNum: nat, cls: Class, c: nat)
    requires m < |was| && OnlyTable(was, now, m) && Joined(was[m].slots, now[m].slots, eqpNum, cls, c)
    ensures OnlyFor(was, now, c)
  {
    forall d: nat | d != c ensures NoGain(was[m], now[m], d) { JoinedGains(was[m], now[m], eqpNum, cls, c, d); }
    OnlyForOne(was, now, m, c);
  }

  lemma {:induction false} HardGains(was: Module, now: Module, sources: nat, c: nat, d: nat)
    requires now.slots == was.slots && |now.hard| == |was.hard| && d != c
    requires forall j: nat | j < |was.hard| ::
             now.hard[j] == if Bit(sources, j) then JoinMask(was.hard[j], c) else was.hard[j]
    ensures NoGain(was, now, d)
  {
    forall j: nat | j < |was.hard| ensures Bit(now.hard[j], d) ==> Bit(was.hard[j], d) {
      JoinMaskBit(was.hard[j], c, d);
    }
  }

  lemma {:induction false} LeftGains(was: Module, now: Module, c: nat, d: nat)
    requires TableOk(was.slots) && Left(was.slots, now.slots, c) && |now.hard| == |was.hard|
    requires forall j | 0 <= j < |was.hard| :: now.hard[j] == was.hard[j] || now.hard[j] == LeaveMask(was.hard[j], c)
    ensures NoGain(was, now, d)
  {
    forall i | 0 <= i < |was.slots| ensures Bit(now.slots[i].clients, d) ==> Bit(was.slots[i].clients, d) {
      LeaveOk(was.slots[i], c, d);
    }
    forall j | 0 <= j < |was.hard| ensures Bit(now.hard[j], d) ==> Bit(was.hard[j], d) {
      LeaveMaskBit(was.hard[j], c, d);
    }
  }

  /** Client d is connected to nothing. */
  ghost predicate Absent(modules: seq<Module>, d: nat)
  {
    && (forall m, i | 0 <= m < |modules| && 0 <= i < |modules[m].slots| :: !Bit(modules[m].slots[i].clients, d))
    && (forall m, j | 0 <= m < |modules| && 0 <= j < |modules[m].hard| :: !Bit(modules[m].hard[j], d))
  }

  lemma {:induction false} AbsentStep(was: seq<Module>, now: seq<Module>, c: nat, d: nat)
    requires Absent(was, d) && OnlyFor(was, now, c) && d != c
    ensures Absent(now, d)
  {
    forall n | 0 <= n < |was| ensures NoGain(was[n], now[n], d) {}
  }

  /** The tables over a run, and the client that acts between each state and the next; none of them is d. */
  ghost predicate OthersAct(states: seq<seq<Module>>, actors: seq<nat>, d: nat)
  {
    && |states| == |actors| + 1
    && forall t | 0 <= t < |actors| :: actors[t] != d && OnlyFor(states[t], states[t + 1], actors[t])
  }

  lemma {:induction false} AbsentThroughout(states: seq<seq<Module>>, actors: seq<nat>, d: nat, t: nat)
    requires OthersAct(states, actors, d) && Absent(states[0], d) && t < |states|
    ensures Absent(states[t], d)
  {
    if t > 0 {
      AbsentThroughout(states, actors, d, t - 1);
      AbsentStep(states[t - 1], states[t], actors[t - 1], d);
    }
  }

  /** A client connected to nothing stays so until it connects itself, however long the others act, and all
      the while no interrupt of any source reaches it. */
  lemma {:induction false} AbsentStays(states: seq<seq<Module>>, actors: seq<nat>, d: nat)
    requires OthersAct(states, actors, d) && Absent(states[0], d)
    ensures forall t | 0 <= t < |states| :: Absent(states[t], d)
    ensures forall t, m: nat, source: nat, remote: bool, index: nat
              | 0 <= t < |states| && m < |states[t]| && source < SOURCES && ModuleOk(states[t][m]) ::
              !Bit(Receivers(states[t][m], source, remote, index), d)
  {
    forall t | 0 <= t < |states| ensures Absent(states[t], d) { AbsentThroughout(states, actors, d, t); }
    forall t, m: nat, source: nat, remote: bool, index: nat
      | 0 <= t < |states| && m < |states[t]| && source < SOURCES && ModuleOk(states[t][m])
      ensures !Bit(Receivers(states[t][m], source, remote, index), d)
    {
      ReceiversAre(states[t][m], source, remote, index, d);
    }
  }

  class Driver {
    var modules: seq<Module>
    var ptims: seq<Binding>

    ghost predicate Valid()
      reads this
    {
      DriverOk(modules, ptims)
    }

    /** Modules just installed. */
    constructor (n: nat)
      ensures Valid() && |modules| == n && ptims == []
      ensures forall m: nat, i: nat | m < n && i < TABLE_SIZE :: modules[m].slots[i] == FREE
      ensures forall m: nat, j: nat | m < n && j < SOURCES :: modules[m].hard[j] == 0
    {
      modules := seq(n, _ => Module(seq(TABLE_SIZE, _ => FREE), seq(SOURCES, _ => 0)));
      ptims := [];
    }

    /** GetPtimModule */
    method PtimModule(eqpNum: nat) returns (found: bool, m: nat)
      requires Valid()
      ensures found <==> exists k :: 0 <= k < |ptims| && ptims[k].eqpNum == eqpNum
      ensures found ==> exists k :: 0 <= k < |ptims| && ptims[k].eqpNum == eqpNum && ptims[k].modIndex == m
      ensures found ==> m < |modules| && eqpNum != 0
    {
      for k := 0 to |ptims|
        invariant forall l | 0 <= l < k :: ptims[l].eqpNum != eqpNum
      {
        if ptims[k].eqpNum == eqpNum {
          assert BindingOk(ptims[k], modules);
          return true, ptims[k].modIndex;
        }
      }
      found, m := false, 0;
    }

    /** Storing a changed table. */
    method Replace(m: nat, now: seq<Slot>)
      requires Valid() && m < |modules| && Kept(modules[m].slots, now)
      modifies this`modules
      ensures Valid() && OnlyTable(old(modules), modules, m) && modules[m].slots == now
    {
      KeptDriver(modules, ptims, m, now);
      modules := modules[m := modules[m].(slots := now)];
    }

    /** Connect to a PTIM object: the client joins all its slots, and there is an error exactly if the
        object does not exist or has no slots. */
    method ConnectPtim(eqpNum: nat, c: nat) returns (r: Status)
      requires Valid()
      modifies this`modules
      ensures Valid()
      ensures forall k | 0 <= k < |ptims| && ptims[k].eqpNum == eqpNum ::
                && OnlyTable(old(modules), modules, ptims[k].modIndex)
                && Gains(old(modules)[ptims[k].modIndex].slots, modules[ptims[k].modIndex].slots, eqpNum, Ptim, c)
      ensures r == Ok <==> exists k :: 0 <= k < |ptims| && ptims[k].eqpNum == eqpNum && ptims[k].size > 0
      ensures r == Ok || (r == NoSuchDevice && modules == old(modules))
      ensures OnlyFor(old(modules), modules, c)
    {
      var found, m := PtimModule(eqpNum);
      r := NoSuchDevice;
      if found {
        ghost var k :| 0 <= k < |ptims| && ptims[k].eqpNum == eqpNum && ptims[k].modIndex == m;
        HasSlots(modules, ptims, k);
        var count := JoinObject(m, eqpNum, c);
        if count > 0 { r := Ok; }
      }
    }

    method JoinObject(m: nat, eqpNum: nat, c: nat) returns (count: nat)
      requires Valid() && m < |modules| && eqpNum != 0
      modifies this`modules
      ensures Valid() && OnlyTable(old(modules), modules, m)
      ensures Gains(old(modules)[m].slots, modules[m].slots, eqpNum, Ptim, c) && OnlyFor(old(modules), modules, c)
      ensures count > 0 <==>
                exists i :: 0 <= i < |old(modules)[m].slots| && Matches(old(modules)[m].slots[i], eqpNum, Ptim)
      ensures count == 0 ==> modules == old(modules)
    {
      assert ModuleOk(modules[m]);
      var slots;
      slots, count := JoinAll(modules[m].slots, eqpNum, Ptim, c);
      JoinedKept(modules[m].slots, slots, eqpNum, Ptim, c);
      Replace(m, slots);
      JoinedOnlyFor(old(modules), modules, m, eqpNum, Ptim, c);
      JoinedMeans(old(modules)[m].slots, slots, eqpNum, Ptim, c);
      if count == 0 {
        assert slots == old(modules)[m].slots;
        assert modules[m] == old(modules)[m];
      }
    }

    /** Connect to a CTIM event on one module: the client joins the event's slot, which is made from
        the first free slot if there is none yet and the event is defined.  The frame header is what
        the event's definition holds, zero if it has none. */
    method ConnectCtim(m: nat, eqpNum: nat, header: nat, c: nat) returns (r: Status)
      requires Valid() && m < |modules|
      modifies this`modules
      ensures OnlyTable(old(modules), modules, m) && (header == 0 || eqpNum != 0 || r != Ok ==> Valid())
      ensures var was, now := old(modules)[m].slots, modules[m].slots;
              if exists i :: 0 <= i < |was| && Matches(was[i], eqpNum, Ctim) then
                r == Ok && Gains(was, now, eqpNum, Ctim, c)
              else if header == 0 then r == NoSuchDevice && now == was
              else if None(was, Vacant) then r == NoMemory && now == was
              else r == Ok && exists i: nat :: Made(was, now, i, eqpNum, c)
      ensures OnlyFor(old(modules), modules, c)
    {
      var was := modules[m].slots;
      assert ModuleOk(modules[m]);
      var found, i := FindFirst(was, s => Matches(s, eqpNum, Ctim));
      if found {
        var now := was[i := Join(was[i], c)];
        FirstJoined(was, i, eqpNum, c);
        JoinedKept(was, now, eqpNum, Ctim, c);
        Replace(m, now);
        JoinedOnlyFor(old(modules), modules, m, eqpNum, Ctim, c);
        JoinedMeans(was, now, eqpNum, Ctim, c);
        r := Ok;
      } else if header == 0 {
        r := NoSuchDevice;
      } else {
        found, i := FindFirst(was, Vacant);
        r := if found then Ok else NoMemory;
        if found {
          FreeJoined(was, i, eqpNum, c);
          if eqpNum != 0 { ClaimCtim(modules, ptims, m, i, eqpNum, c); }
          modules := modules[m := modules[m].(slots := was[i := Slot(eqpNum, Ctim, JoinMask(was[i].clients, c))])];
          forall d: nat | d != c ensures NoGain(old(modules)[m], modules[m], d) { JoinMaskBit(was[i].clients, c, d); }
          OnlyForOne(old(modules), modules, m, c);
        }
      }
    }

    /** Connect to hardware sources. */
    method ConnectHard(m: nat, sources: nat, c: nat) returns (r: Status)
      requires Valid() && m < |modules|
      modifies this`modules
      ensures Valid() && |modules| == |old(modules)| && modules[m].slots == old(modules)[m].slots
      ensures forall n | 0 <= n < |modules| && n != m :: modules[n] == old(modules)[n]
      ensures SourcesGain(old(modules)[m].hard, modules[m].hard, sources, c)
      ensures r == if exists j: nat :: j < SOURCES && Bit(sources, j) then Ok else NoSuchDevice
      ensures OnlyFor(old(modules), modules, c)
    {
      assert ModuleOk(modules[m]);
      var hard, count := JoinSources(modules[m].hard, sources, c);
      forall j: nat, d: nat | j < SOURCES { JoinMaskBit(modules[m].hard[j], c, d); }
      HardDriver(modules, ptims, m, hard);
      modules := modules[m := modules[m].(hard := hard)];
      forall d: nat | d != c ensures NoGain(old(modules)[m], modules[m], d) {
        HardGains(old(modules)[m], modules[m], sources, c, d);
      }
      OnlyForOne(old(modules), modules, m, c);
      r := if count > 0 then Ok else NoSuchDevice;
    }

    /** Disconnect from a timing object on one module. */
    method DisconnectObject(m: nat, eqpNum: nat, cls: Class, c: nat)
      requires Valid() && m < |modules| && cls != Hard
      modifies this`modules
      ensures Valid() && OnlyTable(old(modules), modules, m)
      ensures forall i | 0 <= i < TABLE_SIZE ::
                var was := old(modules)[m].slots[i];
                modules[m].slots[i] == if Matches(was, eqpNum, cls) then Leave(was, c) else was
      ensures Loses(old(modules)[m].slots, modules[m].slots, eqpNum, cls, c)
      ensures OnlyFor(old(modules), modules, c)
    {
      assert ModuleOk(modules[m]);
      var now := LeaveObject(modules[m].slots, eqpNum, cls, c);
      LeftKept(modules[m].slots, now, c);
      LeftMeans(modules[m].slots, now, eqpNum, cls, c);
      Replace(m, now);
      forall d: nat | d != c ensures NoGain(old(modules)[m], modules[m], d) {
        LeftGains(old(modules)[m], modules[m], c, d);
      }
      OnlyForOne(old(modules), modules, m, c);
    }

    /** Disconnect from all hardware sources of one module. */
    method DisconnectHard(m: nat, c: nat)
      requires Valid() && m < |modules|
      modifies this`modules
      ensures Valid() && |modules| == |old(modules)| && modules[m].slots == old(modules)[m].slots
      ensures forall n | 0 <= n < |modules| && n != m :: modules[n] == old(modules)[n]
      ensures forall j | 0 <= j < SOURCES :: modules[m].hard[j] == LeaveMask(old(modules)[m].hard[j], c)
      ensures OnlyFor(old(modules), modules, c)
    {
      assert ModuleOk(modules[m]);
      var hard := LeaveSources(modules[m].hard, c);
      HardDriver(modules, ptims, m, hard);
      modules := modules[m := modules[m].(hard := hard)];
      forall d: nat | d != c ensures NoGain(old(modules)[m], modules[m], d) {
        LeftGains(old(modules)[m], modules[m], c, d);
      }
      OnlyForOne(old(modules), modules, m, c);
    }

    /** DisConnectAll on one module. */
    method DisconnectModule(m: nat, c: nat)
      requires Valid() && m < |modules|
      modifies this`modules
      ensures Valid() && |modules| == |old(modules)| && Detached(old(modules)[m], modules[m], c)
      ensures forall n | 0 <= n < |modules| && n != m :: modules[n] == old(modules)[n]
    {
      assert ModuleOk(modules[m]);
      var now := LeaveEvery(modules[m].slots, c);
      LeftKept(modules[m].slots, now, c);
      Replace(m, now);
      DisconnectHard(m, c);
    }

    /** DisConnectAll */
    method DisconnectAll(c: nat)
      requires Valid()
      modifies this`modules
      ensures Valid() && |modules| == |old(modules)|
      ensures forall m | 0 <= m < |modules| :: Detached(old(modules)[m], modules[m], c)
      ensures Absent(modules, c) && OnlyFor(old(modules), modules, c)
    {
      for m := 0 to |modules|
        invariant Valid() && |modules| == |old(modules)|
        invariant forall n | 0 <= n < m :: Detached(old(modules)[n], modules[n], c)
        invariant forall n | m <= n < |modules| :: modules[n] == old(modules)[n]
      {
        DisconnectModule(m, c);
      }
      forall m | 0 <= m < |modules| ensures ModuleOk(old(modules)[m]) {}
      AllDetached(old(modules), modules, c);
    }

    /** CREATE_PTIM_OBJECT: first fit.  The object gets the lowest run of free slots of its size, an
        occupied slot is never touched, and there is no place only if there is no such run. */
    method CreatePtim(eqpNum: nat, modIndex: nat, size: nat) returns (r: Status)
      requires Valid()
      modifies this
      ensures eqpNum != 0 || r != Ok ==> Valid()
      ensures if exists k :: 0 <= k < |old(ptims)| && old(ptims)[k].eqpNum == eqpNum then r == Busy
              else if |old(ptims)| >= PTIM_OBJECTS then r == NoMemory
              else if modIndex >= |old(modules)| then r == Invalid
              else r == if exists j: nat :: FreeRun(old(modules)[modIndex].slots, j, Wanted(size)) then Ok else Invalid
      ensures r != Ok ==> modules == old(modules) && ptims == old(ptims)
      ensures forall c: nat :: OnlyFor(old(modules), modules, c)
      ensures r == Ok ==>
                && |ptims| == |old(ptims)| + 1 && ptims[..|old(ptims)|] == old(ptims)
                && var p := ptims[|old(ptims)|];
                && p.eqpNum == eqpNum && p.modIndex == modIndex && p.size == size
                && FreeRun(old(modules)[modIndex].slots, p.start, Wanted(size))
                && (forall j: nat | j < p.start :: !FreeRun(old(modules)[modIndex].slots, j, Wanted(size)))
                && OnlyTable(old(modules), modules, modIndex)
                && Claimed(old(modules)[modIndex].slots, modules[modIndex].slots, p.start, size, eqpNum)
    {
      var found, k := FindBinding(ptims, eqpNum);
      if found { return Busy; }
      if |ptims| >= PTIM_OBJECTS { return NoMemory; }
      if modIndex >= |modules| { return Invalid; }
      var slots, start := modules[modIndex].slots, 0;
      assert ModuleOk(modules[modIndex]);
      found, start := FirstFit(slots, size);
      if !found { return Invalid; }
      var now := Claim(slots, start, size, eqpNum);
      if eqpNum != 0 { ClaimPtim(modules, ptims, modIndex, start, size, eqpNum, now); }
      modules := modules[modIndex := modules[modIndex].(slots := now)];
      ptims := ptims + [Binding(eqpNum, modIndex, size, start)];
      r := Ok;
    }

    /** DESTROY_PTIM_OBJECT: an object that no client uses gives back its slots and its binding. */
    method DestroyPtim(eqpNum: nat, modIndex: nat) returns (r: Status)
      requires Valid()
      modifies this
      ensures Valid()
      ensures r != Ok ==> modules == old(modules) && ptims == old(ptims)
      ensures forall c: nat :: OnlyFor(old(modules), modules, c)
      ensures r == Busy <==> modIndex < |old(modules)| && InUse(old(modules)[modIndex].slots, eqpNum)
      ensures r == Ok <==>
                && modIndex < |old(modules)| && !InUse(old(modules)[modIndex].slots, eqpNum)
                && Holds(old(ptims), eqpNum, modIndex)
      ensures (exists k :: 0 <= k < |old(ptims)| && old(ptims)[k].eqpNum == eqpNum && old(ptims)[k].size == 0) ==>
              r == Invalid
      ensures r == Ok ==>
                && modIndex < |modules| && OnlyTable(old(modules), modules, modIndex)
                && (forall i | 0 <= i < TABLE_SIZE ::
                     modules[modIndex].slots[i] == if Matches(old(modules)[modIndex].slots[i], eqpNum, Ptim) then FREE
                                                   else old(modules)[modIndex].slots[i])
                && exists k: nat :: k < |old(ptims)| && old(ptims)[k].eqpNum == eqpNum
                                 && ptims == Unregistered(old(ptims), k)
    {
      if modIndex >= |modules| { return Invalid; }
      assert ModuleOk(modules[modIndex]);
      var slots := modules[modIndex].slots;
      var found, busy := CheckUse(slots, eqpNum);
      HoldsSlots(modules, ptims, modIndex, eqpNum);
      if busy { return Busy; }
      if !found { return Invalid; }
      var now := Release(slots, eqpNum);
      var k;
      found, k := FindBinding(ptims, eqpNum);
      ReleasePtim(modules, ptims, modIndex, eqpNum, now);
      assert found;
      ReleasedDriver(modules, ptims, modIndex, k, now);
      modules := modules[modIndex := modules[modIndex].(slots := now)];
      ptims := Unregistered(ptims, k);
      r := Ok;
    }
  }

  /** A PTIM object of at least one slot is registered on a module. */
  ghost predicate Holds(ptims: seq<Binding>, eqpNum: nat, m: nat)
  {
    exists k :: 0 <= k < |ptims| && ptims[k].eqpNum == eqpNum && ptims[k].modIndex == m && ptims[k].size > 0
  }

  /** A client has left every slot and source of a module. */
  ghost predicate Detached(was: Module, now: Module, c: nat)
  {
    && |now.slots| == |was.slots| && |now.hard| == |was.hard|
    && (forall i | 0 <= i < |was.slots| :: now.slots[i] == Leave(was.slots[i], c))
    && (forall j | 0 <= j < |was.hard| :: now.hard[j] == LeaveMask(was.hard[j], c))
  }

  /** The client has left some slots and keeps the rest; nothing else has changed hands. */
  ghost predicate Left(was: seq<Slot>, now: seq<Slot>, c: nat)
  {
    |now| == |was| && forall i | 0 <= i < |was| :: now[i] == was[i] || now[i] == Leave(was[i], c)
  }

  lemma {:induction false} AllDetached(was: seq<Module>, now: seq<Module>, c: nat)
    requires |now| == |was| && forall m | 0 <= m < |was| :: ModuleOk(was[m]) && Detached(was[m], now[m], c)
    ensures Absent(now, c) && OnlyFor(was, now, c)
  {
    forall m, i | 0 <= m < |now| && 0 <= i < |now[m].slots| ensures !Bit(now[m].slots[i].clients, c) {
      LeaveOk(was[m].slots[i], c, c);
    }
    forall m, j | 0 <= m < |now| && 0 <= j < |now[m].hard| ensures !Bit(now[m].hard[j], c) {
      LeaveMaskBit(was[m].hard[j], c, c);
    }
    forall m, d: nat | 0 <= m < |was| && d != c ensures NoGain(was[m], now[m], d) { LeftGains(was[m], now[m], c, d); }
  }

  lemma {:induction false} LeftKept(was: seq<Slot>, now: seq<Slot>, c: nat)
    requires TableOk(was) && Left(was, now, c)
    ensures Kept(was, now)
  {
  }

  lemma {:induction false} FirstJoined(was: seq<Slot>, i: nat, eqpNum: nat, c: nat)
    requires TableOk(was) && i < |was| && Matches(was[i], eqpNum, Ctim)
    ensures Joined(was, was[i := Join(was[i], c)], eqpNum, Ctim, c) && eqpNum != 0
  {
  }

  lemma {:induction false} HardDriver(modules: seq<Module>, ptims: seq<Binding>, m: nat, hard: seq<nat>)
    requires DriverOk(modules, ptims) && m < |modules| && |hard| == SOURCES
    ensures DriverOk(modules[m := modules[m].(hard := hard)], ptims)
  {
  }

  lemma {:induction false} FreeJoined(was: seq<Slot>, i: nat, eqpNum: nat, c: nat)
    requires IsFirst(was, i, Vacant) && SlotOk(was[i])
    ensures Made(was, was[i := Slot(eqpNum, Ctim, JoinMask(was[i].clients, c))], i, eqpNum, c)
  {
    forall d: nat ensures Bit(JoinMask(was[i].clients, c), d) <==> d == c {
      JoinMaskBit(was[i].clients, c, d);
      BitZero(d);
    }
  }

  /** A free slot may be made a CTIM slot for an event that has none. */
  lemma {:induction false} ClaimCtim(modules: seq<Module>, ptims: seq<Binding>, m: nat, i: nat, eqpNum: nat, c: nat)
    requires DriverOk(modules, ptims) && m < |modules| && i < |modules[m].slots| && Vacant(modules[m].slots[i]) &&
             eqpNum != 0
    requires forall j | 0 <= j < |modules[m].slots| :: !Matches(modules[m].slots[j], eqpNum, Ctim)
    ensures var s := Slot(eqpNum, Ctim, JoinMask(modules[m].slots[i].clients, c));
            && s.clients == Pow2(c)
            && DriverOk(modules[m := modules[m].(slots := modules[m].slots[i := s])], ptims)
  {
  }

  /** A run of free slots may be given to a new PTIM object. */
  lemma {:induction false} ClaimPtim(modules: seq<Module>, ptims: seq<Binding>, m: nat, start: nat, size: nat,
      eqpNum: nat, now: seq<Slot>)
    requires DriverOk(modules, ptims) && m < |modules| && eqpNum != 0
    requires FreeRun(modules[m].slots, start, Wanted(size)) && Claimed(modules[m].slots, now, start, size, eqpNum)
    requires forall l | 0 <= l < |ptims| :: ptims[l].eqpNum != eqpNum
    ensures DriverOk(modules[m := modules[m].(slots := now)], ptims + [Binding(eqpNum, m, size, start)])
  {
    var was, p := modules[m].slots, Binding(eqpNum, m, size, start);
    var modules', ptims' := modules[m := modules[m].(slots := now)], ptims + [p];
    assert ModuleOk(modules[m]);
    assert TableOk(now);
    assert forall k | 0 <= k < |ptims'| :: BindingOk(ptims'[k], modules') by {
      assert forall k | 0 <= k < |ptims| :: BindingOk(ptims[k], modules);
    }
    forall k, i: nat | 0 <= k < |ptims'| && ptims'[k].modIndex < |modules'| && i < |modules'[ptims'[k].modIndex].slots|
                       && Covers(ptims'[k], ptims'[k].modIndex, i)
      ensures Matches(modules'[ptims'[k].modIndex].slots[i], ptims'[k].eqpNum, Ptim)
    {
      if k < |ptims| {
        assert ModuleOk(modules[ptims[k].modIndex]);
        assert Matches(modules[ptims[k].modIndex].slots[i], ptims[k].eqpNum, Ptim) && BindingOk(ptims[k], modules);
        assert ptims[k].modIndex == m ==> !(start <= i < start + size);
      }
    }
    forall n: nat, i: nat | n < |modules'| && i < |modules'[n].slots| && modules'[n].slots[i].cls == Ptim
      ensures HasOwner(ptims', n, i)
    {
      NewOwner(modules, ptims, m, now, p, n, i);
    }
  }

  /** The number must not be zero: slots claimed for number zero still count as free. */
  lemma {:induction false} ClaimedTaken(was: seq<Slot>, now: seq<Slot>, start: nat, size: nat, eqpNum: nat)
    requires FreeRun(was, start, size) && size > 0 && Claimed(was, now, start, size, eqpNum)
    ensures FreeRun(now, start, size) <==> eqpNum == 0
  {
    assert now[start].eqpNum == eqpNum;
  }

  lemma {:induction false} NewOwner(modules: seq<Module>, ptims: seq<Binding>, m: nat, now: seq<Slot>, p: Binding,
      n: nat, i: nat)
    requires DriverOk(modules, ptims) && m < |modules| && p.modIndex == m &&
             Claimed(modules[m].slots, now, p.start, p.size, p.eqpNum)
    requires n < |modules| && i < TABLE_SIZE == |now| && ModuleOk(modules[n])
    requires (if n == m then now[i] else modules[n].slots[i]).cls == Ptim
    ensures HasOwner(ptims + [p], n, i)
  {
    var ptims' := ptims + [p];
    if Covers(p, n, i) {
      assert Covers(ptims'[|ptims|], n, i);
    } else {
      assert modules[n].slots[i].cls == Ptim;
      var k :| 0 <= k < |ptims| && Covers(ptims[k], n, i);
      assert Covers(ptims'[k], n, i);
    }
  }

  /** An object with slots is registered, on the module that has them. */
  lemma {:induction false} ReleasePtim(modules: seq<Module>, ptims: seq<Binding>, m: nat, eqpNum: nat, now: seq<Slot>)
    requires DriverOk(modules, ptims) && m < |modules|
    requires exists i :: 0 <= i < |modules[m].slots| && Matches(modules[m].slots[i], eqpNum, Ptim)
    ensures exists k :: 0 <= k < |ptims| && ptims[k].eqpNum == eqpNum
    ensures forall k | 0 <= k < |ptims| && ptims[k].eqpNum == eqpNum :: ptims[k].modIndex == m
  {
  }

  lemma {:induction false} UnregisteredAt(ptims: seq<Binding>, k: nat, l: nat)
    requires k < |ptims| && l < |ptims| - 1
    ensures Unregistered(ptims, k)[l] == ptims[if l == k then |ptims| - 1 else l]
  {
  }

  /** Giving back all slots of an object together with its binding keeps the driver sound. */
  lemma {:induction false} ReleasedDriver(modules: seq<Module>, ptims: seq<Binding>, m: nat, k: nat, now: seq<Slot>)
    requires DriverOk(modules, ptims) && m < |modules| && k < |ptims| && ptims[k].modIndex == m &&
             |now| == |modules[m].slots|
    requires forall i | 0 <= i < |now| && Matches(modules[m].slots[i], ptims[k].eqpNum, Ptim) ::
               modules[m].slots[i].clients == 0
    requires forall i | 0 <= i < |now| ::
               now[i] == if Matches(modules[m].slots[i], ptims[k].eqpNum, Ptim)
                   then modules[m].slots[i].(eqpNum := 0, cls := Hard)
                         else modules[m].slots[i]
    ensures DriverOk(modules[m := modules[m].(slots := now)], Unregistered(ptims, k))
    ensures forall i | 0 <= i < |now| && Matches(modules[m].slots[i], ptims[k].eqpNum, Ptim) :: now[i] == FREE
  {
    var was, modules', ptims' := modules[m].slots, modules[m := modules[m].(slots := now)], Unregistered(ptims, k);
    assert ModuleOk(modules[m]);
    assert TableOk(now);
    forall l: nat | l < |ptims'| ensures BindingOk(ptims'[l], modules') && ptims'[l].eqpNum != ptims[k].eqpNum {
      UnregisteredAt(ptims, k, l);
      assert BindingOk(ptims[if l == k then |ptims| - 1 else l], modules);
    }
    forall l: nat, n: nat | l < n < |ptims'| ensures ptims'[l].eqpNum != ptims'[n].eqpNum {
      UnregisteredAt(ptims, k, l);
      UnregisteredAt(ptims, k, n);
    }
    forall l, i: nat | 0 <= l < |ptims'| && ptims'[l].modIndex < |modules'| && i < |modules'[ptims'[l].modIndex].slots|
                       && Covers(ptims'[l], ptims'[l].modIndex, i)
      ensures Matches(modules'[ptims'[l].modIndex].slots[i], ptims'[l].eqpNum, Ptim)
    {
      UnregisteredAt(ptims, k, l);
      var o := if l == k then |ptims| - 1 else l;
      assert ModuleOk(modules[ptims[o].modIndex]);
      assert Matches(modules[ptims[o].modIndex].slots[i], ptims[o].eqpNum, Ptim);
    }
    forall n: nat, i: nat | n < |modules'| && i < |modules'[n].slots| && modules'[n].slots[i].cls == Ptim
      ensures HasOwner(ptims', n, i)
    {
      assert ModuleOk(modules[n]);
      OldOwner(modules, ptims, k, n, i);
    }
  }

  lemma {:induction false} OldOwner(modules: seq<Module>, ptims: seq<Binding>, k: nat, n: nat, i: nat)
    requires DriverOk(modules, ptims) && k < |ptims| && n < |modules| && i < TABLE_SIZE && ModuleOk(modules[n])
    requires modules[n].slots[i].cls == Ptim &&
             (n != ptims[k].modIndex || modules[n].slots[i].eqpNum != ptims[k].eqpNum)
    ensures HasOwner(Unregistered(ptims, k), n, i)
  {
    assert HasOwner(ptims, n, i);
    var o :| 0 <= o < |ptims| && Covers(ptims[o], n, i);
    assert Matches(modules[n].slots[i], ptims[o].eqpNum, Ptim);
    var l := if o == |ptims| - 1 then k else o;
    UnregisteredAt(ptims, k, l);
    assert Covers(Unregistered(ptims, k)[l], n, i);
  }

  // ----- setting actions -----

  /** What SET_ACTION does to a slot's owner: only a slot that already has the given number, class and
      counter is accepted, unless it is free but has a class. */
  function SetAction(s: Slot, eqpNum: nat, cls: Class, sameCounter: bool): (Status, Slot)
  {
    if s.cls == Hard then (Invalid, s)
    else if s.eqpNum != 0 then (if s.eqpNum == eqpNum && s.cls == cls && sameCounter then Ok else Invalid, s)
    else (Ok, s.(eqpNum := eqpNum, cls := cls))
  }

  /** An action changes a slot exactly if the slot is free but has a class, and not already what is asked for. */
  lemma {:induction false} SetActionClaims(s: Slot, eqpNum: nat, cls: Class, sameCounter: bool)
    ensures SetAction(s, eqpNum, cls, sameCounter).1 != s <==>
              s.cls != Hard && s.eqpNum == 0 && (eqpNum != 0 || cls != s.cls)
  {
  }

  /** For one, the slot of a PTIM object created with number zero just after installation. */
  method ClaimedForZero() returns (d: Driver, r: Status)
    ensures fresh(d) && |d.modules| == 1 && |d.modules[0].slots| == TABLE_SIZE
    ensures d.modules[0].slots[0] == Slot(0, Ptim, 0)
    ensures r == Ok && SetAction(d.modules[0].slots[0], 5, Ptim, true) == (Ok, Slot(5, Ptim, 0))
  {
    d := new Driver(1);
    ghost var was := d.modules[0].slots;
    assert FreeRun(was, 0, Wanted(1));
    r := d.CreatePtim(0, 0, 1);
    assert d.ptims[0].start == 0;
  }

  /** In a sound driver there is no such slot, so an action never changes whom a slot belongs to, and is accepted
      exactly for the owner. */
  lemma {:induction false} SetActionKeeps(modules: seq<Module>, ptims: seq<Binding>, m: nat, i: nat, eqpNum: nat,
      cls: Class, sameCounter: bool)
    requires DriverOk(modules, ptims) && m < |modules| && i < TABLE_SIZE
    ensures ModuleOk(modules[m])
    ensures SetAction(modules[m].slots[i], eqpNum, cls, sameCounter).1 == modules[m].slots[i]
    ensures SetAction(modules[m].slots[i], eqpNum, cls, sameCounter).0 == Ok <==>
              eqpNum != 0 && Matches(modules[m].slots[i], eqpNum, cls) && sameCounter
  {
  }

  // ----- interrupts -----

  /** The clients on whose queues the interrupt handler puts an event.  The trigger index of the
      counter's history counts only if the counter is not under remote control. */
  function Receivers(m: Module, source: nat, remote: bool, index: nat): nat
    requires |m.slots| == TABLE_SIZE && source < |m.hard|
  {
    var users := if source < COUNTERS && !remote && index < TABLE_SIZE then m.slots[index].clients else 0;
    var clients := if users == 0 then m.hard[source] else users;
    Or(clients, m.hard[source])
  }

  /** That is everyone connected to the object that caused it or to the source itself. */
  lemma {:induction false} ReceiversAre(m: Module, source: nat, remote: bool, index: nat, c: nat)
    requires |m.slots| == TABLE_SIZE && source < |m.hard|
    ensures Bit(Receivers(m, source, remote, index), c) <==>
              || Bit(m.hard[source], c)
              || (source < COUNTERS && !remote && index < TABLE_SIZE && Bit(m.slots[index].clients, c))
  {
    var users := if source < COUNTERS && !remote && index < TABLE_SIZE then m.slots[index].clients else 0;
    BitOr(if users == 0 then m.hard[source] else users, m.hard[source], c);
    BitZero(c);
  }

  /** After DisConnectAll no interrupt reaches the client, and every other client is reached exactly as
      before. */
  lemma {:induction false} DetachedUnreached(was: Module, now: Module, c: nat, source: nat, remote: bool, index: nat,
      d: nat)
    requires ModuleOk(was) && Detached(was, now, c) && source < SOURCES
    ensures Bit(Receivers(now, source, remote, index), d) <==> d != c && Bit(Receivers(was, source, remote, index), d)
  {
    ReceiversAre(was, source, remote, index, d);
    ReceiversAre(now, source, remote, index, d);
    LeaveMaskBit(was.hard[source], c, d);
    if index < TABLE_SIZE { LeaveOk(was.slots[index], c, d); }
  }

  /** After Connect to an object, its interrupts reach the client, and all else is reached as before. */
  lemma {:induction false} ConnectedReached(was: Module, now: Module, eqpNum: nat, cls: Class, c: nat, source: nat,
                                            remote: bool, index: nat, d: nat)
    requires ModuleOk(was) && Gains(was.slots, now.slots, eqpNum, cls, c) && now.hard == was.hard && source < SOURCES
    ensures Bit(Receivers(now, source, remote, index), d) <==>
              || Bit(Receivers(was, source, remote, index), d)
              || (source < COUNTERS && !remote && index < TABLE_SIZE && d == c &&
                  Matches(was.slots[index], eqpNum, cls))
  {
    ReceiversAre(was, source, remote, index, d);
    ReceiversAre(now, source, remote, index, d);
    if index < TABLE_SIZE {
      assert SlotGains(was.slots[index], now.slots[index], Matches(was.slots[index], eqpNum, cls), c);
    }
  }

  /** The same for an event whose slot has just been made. */
  lemma {:induction false} MadeReached(was: Module, now: Module, i: nat, eqpNum: nat, c: nat, source: nat, remote: bool,
                                       index: nat, d: nat)
    requires ModuleOk(was) && Made(was.slots, now.slots, i, eqpNum, c) && now.hard == was.hard && source < SOURCES
    ensures Bit(Receivers(now, source, remote, index), d) <==>
              || Bit(Receivers(was, source, remote, index), d)
              || (source < COUNTERS && !remote && d == c && index == i)
  {
    ReceiversAre(was, source, remote, index, d);
    ReceiversAre(now, source, remote, index, d);
    assert SlotOk(was.slots[i]);
    BitZero(d);
  }

  /** After DisConnect from an object its interrupts reach the client only if it is connected to their source, and
      all else is reached as before. */
  lemma {:induction false} DisconnectedReached(was: Module, now: Module, eqpNum: nat, cls: Class, c: nat, source: nat,
                                               remote: bool, index: nat, d: nat)
    requires ModuleOk(was) && Loses(was.slots, now.slots, eqpNum, cls, c) && now.hard == was.hard && source < SOURCES
    ensures Bit(Receivers(now, source, remote, index), d) <==>
              if d == c && index < TABLE_SIZE && Matches(was.slots[index], eqpNum, cls) then Bit(was.hard[source], c)
              else Bit(Receivers(was, source, remote, index), d)
  {
    ReceiversAre(was, source, remote, index, d);
    ReceiversAre(now, source, remote, index, d);
    if index < TABLE_SIZE {
      assert SlotLoses(was.slots[index], now.slots[index], Matches(was.slots[index], eqpNum, cls), c);
    }
  }

  /** Connecting to hardware sources does the same for them. */
  lemma {:induction false} SourcesReached(was: Module, now: Module, sources: nat, c: nat, source: nat, remote: bool,
                                          index: nat, d: nat)
    requires ModuleOk(was) && SourcesGain(was.hard, now.hard, sources, c) && now.slots == was.slots && source < SOURCES
    ensures Bit(Receivers(now, source, remote, index), d) <==>
              || Bit(Receivers(was, source, remote, index), d)
              || (d == c && Bit(sources, source))
  {
    ReceiversAre(was, source, remote, index, d);
    ReceiversAre(now, source, remote, index, d);
  }

  /** A slot with a client is occupied, by a CTIM event or a PTIM object. */
  lemma {:induction false} ClientsOccupy(modules: seq<Module>, ptims: seq<Binding>, m: nat, i: nat, c: nat)
    requires DriverOk(modules, ptims) && m < |modules| && i < TABLE_SIZE
    ensures ModuleOk(modules[m])
    ensures Bit(modules[m].slots[i].clients, c) ==> modules[m].slots[i].eqpNum != 0 && modules[m].slots[i].cls != Hard
  {
    assert ModuleOk(modules[m]);
    assert SlotOk(modules[m].slots[i]);
    BitZero(c);
  }

  /** The module has slots of an object exactly if it holds the object. */
  lemma {:induction false} HoldsSlots(modules: seq<Module>, ptims: seq<Binding>, m: nat, eqpNum: nat)
    requires DriverOk(modules, ptims) && m < |modules|
    ensures (exists i :: 0 <= i < |modules[m].slots| && Matches(modules[m].slots[i], eqpNum, Ptim)) <==>
            Holds(ptims, eqpNum, m)
    ensures InUse(modules[m].slots, eqpNum) ==> Holds(ptims, eqpNum, m)
    ensures Holds(ptims, eqpNum, m) ==> forall k | 0 <= k < |ptims| && ptims[k].eqpNum == eqpNum :: ptims[k].size > 0
  {
    if i :| 0 <= i < |modules[m].slots| && Matches(modules[m].slots[i], eqpNum, Ptim) {
      assert HasOwner(ptims, m, i);
      var k :| 0 <= k < |ptims| && Covers(ptims[k], m, i);
      assert Matches(modules[m].slots[i], ptims[k].eqpNum, Ptim);
    }
    if k :| 0 <= k < |ptims| && ptims[k].eqpNum == eqpNum && ptims[k].modIndex == m && ptims[k].size > 0 {
      HasSlots(modules, ptims, k);
    }
  }

  lemma {:induction false} HasSlots(modules: seq<Module>, ptims: seq<Binding>, k: nat)
    requires DriverOk(modules, ptims) && k < |ptims|
    ensures ptims[k].modIndex < |modules|
    ensures ptims[k].size > 0 <==>
              exists i :: 0 <= i < |modules[ptims[k].modIndex].slots| &&
                  Matches(modules[ptims[k].modIndex].slots[i], ptims[k].eqpNum, Ptim)
  {
    var p := ptims[k];
    assert BindingOk(p, modules) && ModuleOk(modules[p.modIndex]);
    if p.size > 0 { OwnsExactly(modules, ptims, k, p.modIndex, p.start); }
    if i :| 0 <= i < |modules[p.modIndex].slots| && Matches(modules[p.modIndex].slots[i], p.eqpNum, Ptim) {
      OwnsExactly(modules, ptims, k, p.modIndex, i);
    }
  }
}
