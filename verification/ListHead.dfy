/** include/list.h: circular doubly linked lists on heap nodes, shown to be sequences. */
module ListHead {

  /** A list_head and the fields of the structure it is embedded in; the structure of a node is
      then the node itself. */
  class Node {
    var next: Node?
    var prev: Node?
    const ticket: nat
    var up: bool

    constructor (ticket: nat)
      ensures this.ticket == ticket && !up
    {
      next, prev, up := null, null, false;
      this.ticket := ticket;
    }
  }

  /** The node a pointer leads to, if any. */
  ghost function Of(n: Node?): set<Node>
  {
    if n == null then {} else {n}
  }

  /** Neighbours on a path point to each other.  The first node's prev and the last node's next
      do not matter. */
  ghost predicate Linked(c: seq<Node>)
    reads c
  {
    forall i: nat | i + 1 < |c| :: c[i].next == c[i + 1] && c[i + 1].prev == c[i]
  }

  ghost predicate Distinct(c: seq<Node>)
  {
    forall i: nat, j: nat | i < j < |c| :: c[i] != c[j]
  }

  /** The list with a head and these entries, in order: a path from the head back to itself. */
  ghost predicate Ring(head: Node, s: seq<Node>)
    reads head, s
  {
    Distinct([head] + s) && Linked([head] + s + [head])
  }

  lemma {:induction false} LinkedJoin(a: seq<Node>, b: seq<Node>)
    requires a != [] && b != [] && Linked(a) && Linked(b)
    requires a[|a| - 1].next == b[0] && b[0].prev == a[|a| - 1]
    ensures Linked(a + b)
  {
  }

  lemma {:induction false} LinkedPart(a: seq<Node>, b: seq<Node>)
    requires Linked(a + b)
    ensures Linked(a) && Linked(b)
    ensures a != [] && b != [] ==> a[|a| - 1].next == b[0] && b[0].prev == a[|a| - 1]
  {
    var c := a + b;
    forall i: nat | i + 1 < |a| ensures a[i].next == a[i + 1] && a[i + 1].prev == a[i] {
      assert c[i] == a[i] && c[i + 1] == a[i + 1];
    }
    forall i: nat | i + 1 < |b| ensures b[i].next == b[i + 1] && b[i + 1].prev == b[i] {
      assert c[|a| + i] == b[i] && c[|a| + i + 1] == b[i + 1];
    }
    if a != [] && b != [] {
      assert c[|a| - 1] == a[|a| - 1] && c[|a| - 1 + 1] == b[0];
    }
  }

  /** A path survives changes to the next of its last node and the prev of its first, and to nodes
      off the path. */
  twostate lemma {:induction false} LinkedKept(c: seq<Node>)
    requires old(Linked(c))
    requires forall i: nat | i + 1 < |c| :: c[i].next == old(c[i].next)
    requires forall i: nat | 0 < i < |c| :: c[i].prev == old(c[i].prev)
    ensures Linked(c)
  {
  }

  /** __list_add, between the end of one path and the start of another. */
  method AddBetween(newl: Node, prev: Node, next: Node, ghost a: seq<Node>, ghost b: seq<Node>)
    requires a != [] && b != [] && prev == a[|a| - 1] && next == b[0] && Linked(a) && Linked(b)
    requires Distinct(a) && Distinct(b) && newl !in a && newl !in b && Apart(a, b)
    modifies newl`next, newl`prev, prev`next, next`prev
    ensures Linked(a + [newl] + b)
  {
    next.prev := newl;
    newl.next := next;
    newl.prev := prev;
    prev.next := newl;
    LinkedKept(a);
    LinkedKept(b);
    LinkedJoin(a, [newl]);
    LinkedJoin(a + [newl], b);
  }

  /** The only node two parts of a list may share is the head, first on one and last on the other. */
  ghost predicate Apart(a: seq<Node>, b: seq<Node>)
  {
    forall i: nat, j: nat | i < |a| && j < |b| && (i > 0 || j < |b| - 1) :: a[i] != b[j]
  }

  ghost function Before(head: Node, s: seq<Node>, k: nat): seq<Node>
    requires k <= |s|
  {
    [head] + s[..k]
  }

  ghost function From(head: Node, s: seq<Node>, k: nat): seq<Node>
    requires k <= |s|
  {
    s[k..] + [head]
  }

  /** A list cut in two before entry number k. */
  lemma {:induction false} RingCut(head: Node, s: seq<Node>, k: nat)
    requires Ring(head, s) && k <= |s|
    ensures Linked(Before(head, s, k)) && Linked(From(head, s, k))
    ensures Before(head, s, k)[k].next == From(head, s, k)[0] && From(head, s, k)[0].prev == Before(head, s, k)[k]
  {
    assert [head] + s + [head] == Before(head, s, k) + From(head, s, k);
    LinkedPart(Before(head, s, k), From(head, s, k));
  }

  lemma {:induction false} CutDistinct(head: Node, s: seq<Node>, k: nat, l: nat)
    requires Distinct([head] + s) && k <= l <= |s|
    ensures Distinct(Before(head, s, k)) && Distinct(From(head, s, l)) && Apart(Before(head, s, k), From(head, s, l))
  {
    var c, a, b := [head] + s, Before(head, s, k), From(head, s, l);
    assert forall i: nat | i < |a| :: a[i] == c[i];
    assert forall j: nat | j < |b| - 1 :: b[j] == c[l + 1 + j];
    assert b[|b| - 1] == c[0];
  }

  /** A head and all other entries make a list again if they are linked. */
  lemma {:induction false} RingInsert(head: Node, s: seq<Node>, k: nat, n: Node)
    requires k <= |s| && Distinct([head] + s) && n !in [head] + s
    requires Linked(Before(head, s, k) + [n] + From(head, s, k))
    ensures Ring(head, s[..k] + [n] + s[k..])
  {
    var t := s[..k] + [n] + s[k..];
    assert [head] + t + [head] == Before(head, s, k) + [n] + From(head, s, k);
    InsertDistinct([head] + s, k + 1, n);
    assert [head] + t == ([head] + s)[..k + 1] + [n] + ([head] + s)[k + 1..];
  }

  lemma {:induction false} InsertDistinct(c: seq<Node>, k: nat, n: Node)
    requires k <= |c| && Distinct(c) && n !in c
    ensures Distinct(c[..k] + [n] + c[k..])
  {
  }

  lemma {:induction false} RingRemove(head: Node, s: seq<Node>, k: nat)
    requires k < |s| && Distinct([head] + s) && Linked(Before(head, s, k) + From(head, s, k + 1))
    ensures Ring(head, s[..k] + s[k + 1..])
  {
    var t := s[..k] + s[k + 1..];
    assert [head] + t + [head] == Before(head, s, k) + From(head, s, k + 1);
    RemoveDistinct([head] + s, k + 1);
    assert [head] + t == ([head] + s)[..k + 1] + ([head] + s)[k + 2..];
  }

  lemma {:induction false} RemoveDistinct(c: seq<Node>, k: nat)
    requires k < |c| && Distinct(c)
    ensures Distinct(c[..k] + c[k + 1..])
  {
  }

  // ----- the operations -----

  /** INIT_LIST_HEAD */
  method InitListHead(head: Node)
    modifies head`next, head`prev
    ensures Ring(head, [])
  {
    head.next, head.prev := head, head;
  }

  /** list_add */
  method ListAdd(newl: Node, head: Node, ghost s: seq<Node>)
    requires Ring(head, s) && newl !in [head] + s
    modifies newl`next, newl`prev, head`next, Of(head.next)`prev
    ensures Ring(head, [newl] + s)
  {
    RingCut(head, s, 0);
    CutDistinct(head, s, 0, 0);
    assert newl !in Before(head, s, 0) && newl !in From(head, s, 0);
    AddBetween(newl, head, head.next, Before(head, s, 0), From(head, s, 0));
    RingInsert(head, s, 0, newl);
    assert s[..0] + [newl] + s[0..] == [newl] + s;
  }

  /** list_add_tail */
  method ListAddTail(newl: Node, head: Node, ghost s: seq<Node>)
    requires Ring(head, s) && newl !in [head] + s
    modifies newl`next, newl`prev, head`prev, Of(head.prev)`next
    ensures Ring(head, s + [newl])
  {
    RingCut(head, s, |s|);
    CutDistinct(head, s, |s|, |s|);
    assert newl !in Before(head, s, |s|) && newl !in From(head, s, |s|);
    AddBetween(newl, head.prev, head, Before(head, s, |s|), From(head, s, |s|));
    RingInsert(head, s, |s|, newl);
    assert s[..|s|] + [newl] + s[|s|..] == s + [newl];
  }

  /** __list_del */
  method DelBetween(prev: Node, next: Node, ghost a: seq<Node>, ghost b: seq<Node>)
    requires a != [] && b != [] && prev == a[|a| - 1] && next == b[0] && Linked(a) && Linked(b)
    requires Distinct(a) && Distinct(b) && Apart(a, b)
    modifies prev`next, next`prev
    ensures Linked(a + b)
  {
    next.prev := prev;
    prev.next := next;
    LinkedKept(a);
    LinkedKept(b);
    LinkedJoin(a, b);
  }

  /** The neighbours of entry number k. */
  lemma {:induction false} Neighbours(head: Node, s: seq<Node>, k: nat)
    requires Ring(head, s) && k < |s|
    ensures s[k].prev == Before(head, s, k)[k] && s[k].next == From(head, s, k + 1)[0]
  {
    RingCut(head, s, k);
    RingCut(head, s, k + 1);
    assert From(head, s, k)[0] == s[k] && Before(head, s, k + 1)[k + 1] == s[k];
  }

  /** list_del of entry number k.  The entry's own pointers are left as they were. */
  method ListDel(entry: Node, ghost head: Node, ghost s: seq<Node>, ghost k: nat)
    requires Ring(head, s) && k < |s| && s[k] == entry
    modifies Of(entry.prev)`next, Of(entry.next)`prev
    ensures Ring(head, s[..k] + s[k + 1..])
  {
    Neighbours(head, s, k);
    RingCut(head, s, k);
    RingCut(head, s, k + 1);
    CutDistinct(head, s, k, k + 1);
    DelBetween(entry.prev, entry.next, Before(head, s, k), From(head, s, k + 1));
    RingRemove(head, s, k);
  }

  /** list_del_init */
  method ListDelInit(entry: Node, ghost head: Node, ghost s: seq<Node>, ghost k: nat)
    requires Ring(head, s) && k < |s| && s[k] == entry
    modifies entry`next, entry`prev, Of(entry.prev)`next, Of(entry.next)`prev
    ensures Ring(head, s[..k] + s[k + 1..]) && Ring(entry, [])
  {
    ListDel(entry, head, s, k);
    DeletedIsOff(head, s, k);
    InitOff(entry, head, s[..k] + s[k + 1..]);
  }

  /** A node off a list is made a list of its own. */
  method InitOff(entry: Node, ghost head: Node, ghost t: seq<Node>)
    requires Ring(head, t) && entry !in [head] + t
    modifies entry`next, entry`prev
    ensures Ring(head, t)
    ensures Ring(entry, [])
  {
    InitListHead(entry);
    RingKept([head] + t);
  }

  lemma {:induction false} DeletedIsOff(head: Node, s: seq<Node>, k: nat)
    requires Distinct([head] + s) && k < |s|
    ensures s[k] !in [head] + (s[..k] + s[k + 1..])
  {
    var c, t := [head] + s, [head] + (s[..k] + s[k + 1..]);
    assert c[k + 1] == s[k];
    forall i: nat | i < |t| ensures t[i] != s[k] {
      assert t[i] == if i < k + 1 then c[i] else c[i + 1];
    }
  }

  /** A list, given as its head and entries, does not depend on nodes off it. */
  twostate lemma {:induction false} RingKept(c: seq<Node>)
    requires c != [] && old(Ring(c[0], c[1..]))
    requires forall n <- c :: n.next == old(n.next) && n.prev == old(n.prev)
    ensures Ring(c[0], c[1..])
  {
    assert [c[0]] + c[1..] == c;
    var path := c + [c[0]];
    forall i: nat | i < |path| ensures path[i].next == old(path[i].next) && path[i].prev == old(path[i].prev) {
      assert path[i] in c;
    }
    LinkedKept(path);
  }

  /** The list an entry is moved to: another one, with no node in common, or the same one. */
  ghost predicate Destination(head: Node, t: seq<Node>, from: Node, s: seq<Node>, k: nat)
    requires k < |s|
    reads head, t
  {
    if head == from then t == s[..k] + s[k + 1..]
    else Ring(head, t) && forall n <- [head] + t :: n !in [from] + s
  }

  /** The first half of a move: the entry is on neither list, and both are sound. */
  method Detach(entry: Node, ghost head: Node, ghost t: seq<Node>, ghost from: Node, ghost s: seq<Node>, ghost k: nat)
    requires Ring(from, s) && k < |s| && s[k] == entry && Destination(head, t, from, s, k)
    modifies Of(entry.prev)`next, Of(entry.next)`prev
    ensures Ring(from, s[..k] + s[k + 1..]) && Ring(head, t) && entry !in [head] + t
  {
    Neighbours(from, s, k);
    DeletedIsOff(from, s, k);
    assert entry in [from] + s by { assert ([from] + s)[k + 1] == entry; }
    ListDel(entry, from, s, k);
    if head != from { RingKept([head] + t); }
  }

  /** list_move of entry number k. */
  method ListMove(entry: Node, head: Node, ghost t: seq<Node>, ghost from: Node, ghost s: seq<Node>, ghost k: nat)
    requires Ring(from, s) && k < |s| && s[k] == entry && Destination(head, t, from, s, k)
    modifies s`next, s`prev, from`next, from`prev, t`next, t`prev, head`next, head`prev
    ensures Ring(head, [entry] + t) && (head != from ==> Ring(from, s[..k] + s[k + 1..]))
  {
    Neighbours(from, s, k);
    Detach(entry, head, t, from, s, k);
    RingCut(head, t, 0);
    DeletedIsOff(from, s, k);
    AddOff(entry, head, t, from, s[..k] + s[k + 1..]);
  }

  /** list_add leaves a list with no node in common alone. */
  method AddOff(newl: Node, head: Node, ghost t: seq<Node>, ghost from: Node, ghost s: seq<Node>)
    requires Ring(head, t) && newl !in [head] + t && Ring(from, s) && newl !in [from] + s
    requires head != from ==> forall n <- [head] + t :: n !in [from] + s
    modifies newl`next, newl`prev, head`next, Of(head.next)`prev
    ensures Ring(head, [newl] + t) && (head != from ==> Ring(from, s))
  {
    RingCut(head, t, 0);
    ListAdd(newl, head, t);
    if head != from { RingKept([from] + s); }
  }

  /** list_move_tail of entry number k. */
  method ListMoveTail(entry: Node, head: Node, ghost t: seq<Node>, ghost from: Node, ghost s: seq<Node>, ghost k: nat)
    requires Ring(from, s) && k < |s| && s[k] == entry && Destination(head, t, from, s, k)
    modifies s`next, s`prev, from`next, from`prev, t`next, t`prev, head`next, head`prev
    ensures Ring(head, t + [entry]) && (head != from ==> Ring(from, s[..k] + s[k + 1..]))
  {
    Neighbours(from, s, k);
    Detach(entry, head, t, from, s, k);
    RingCut(head, t, |t|);
    DeletedIsOff(from, s, k);
    AddTailOff(entry, head, t, from, s[..k] + s[k + 1..]);
  }

  /** list_add_tail leaves a list with no node in common alone. */
  method AddTailOff(newl: Node, head: Node, ghost t: seq<Node>, ghost from: Node, ghost s: seq<Node>)
    requires Ring(head, t) && newl !in [head] + t && Ring(from, s) && newl !in [from] + s
    requires head != from ==> forall n <- [head] + t :: n !in [from] + s
    modifies newl`next, newl`prev, head`prev, Of(head.prev)`next
    ensures Ring(head, t + [newl]) && (head != from ==> Ring(from, s))
  {
    RingCut(head, t, |t|);
    ListAddTail(newl, head, t);
    if head != from { RingKept([from] + s); }
  }

  /** list_empty */
  method ListEmpty(head: Node, ghost s: seq<Node>) returns (empty: bool)
    requires Ring(head, s)
    ensures empty == (s == [])
  {
    RingCut(head, s, 0);
    assert s != [] ==> From(head, s, 0)[0] == s[0] == ([head] + s)[1] != ([head] + s)[0];
    empty := head.next == head;
  }

  ghost predicate Disjoint(a: seq<Node>, b: seq<Node>)
  {
    forall i: nat, j: nat | i < |a| && j < |b| :: a[i] != b[j]
  }

  /** Path s goes between node h, whose successor starts the path rest, and that path. */
  method Interpose(h: Node, first: Node, last: Node, at: Node, ghost s: seq<Node>, ghost rest: seq<Node>)
    requires s != [] && first == s[0] && last == s[|s| - 1] && Linked(s) && Distinct(s)
    requires rest != [] && at == rest[0] && h == rest[|rest| - 1] && Linked(rest) && Distinct(rest) && Disjoint(s, rest)
    modifies first`prev, last`next, h`next, at`prev
    ensures Linked([h] + s + rest)
  {
    first.prev := h;
    h.next := first;
    last.next := at;
    at.prev := last;
    LinkedKept(s);
    LinkedKept(rest);
    LinkedJoin([h], s);
    LinkedJoin([h] + s, rest);
  }

  /** __list_splice: a whole list goes in after the head of another. */
  method SpliceAfter(list: Node, head: Node, ghost s: seq<Node>, ghost t: seq<Node>)
    requires Ring(list, s) && s != [] && Ring(head, t) && forall n <- [list] + s :: n !in [head] + t
    modifies Of(list.next)`prev, Of(list.prev)`next, head`next, Of(head.next)`prev
    ensures Ring(head, s + t)
  {
    RingCut(list, s, 0);
    RingCut(list, s, |s|);
    RingCut(head, t, 0);
    assert Before(list, s, |s|)[|s|] == s[|s| - 1];
    assert From(list, s, 0)[0] == s[0];
    assert From(head, t, 0) == t + [head];
    LinkedPart(s, [list]);
    SpliceDistinct(list, head, s, t);
    SpliceApart(list, head, s, t);
    Interpose(head, list.next, list.prev, head.next, s, t + [head]);
    assert [head] + (s + t) + [head] == [head] + s + (t + [head]);
  }

  lemma {:induction false} SpliceDistinct(list: Node, head: Node, s: seq<Node>, t: seq<Node>)
    requires Distinct([list] + s) && Distinct([head] + t) && forall n <- [list] + s :: n !in [head] + t
    ensures Distinct([head] + (s + t)) && list !in [head] + (s + t)
  {
    var a, b, c := [list] + s, [head] + t, [head] + (s + t);
    forall i: nat | i < |c| ensures c[i] == if 1 <= i < 1 + |s| then a[i] else b[if i == 0 then 0 else i - |s|] {}
    assert a[0] in a && forall i: nat | i < |a| :: a[i] in a;
    assert forall i: nat | i < |b| :: b[i] in b;
  }

  lemma {:induction false} SpliceApart(list: Node, head: Node, s: seq<Node>, t: seq<Node>)
    requires Distinct([list] + s) && Distinct([head] + (s + t))
    ensures Distinct(s) && Distinct(t + [head]) && Disjoint(s, t + [head])
  {
    var c, rest := [head] + (s + t), t + [head];
    assert forall i: nat | i < |s| :: s[i] == c[1 + i];
    assert forall i: nat | i < |rest| :: rest[i] == if i < |t| then c[1 + |s| + i] else c[0];
  }

  /** list_splice.  The head of the list that was spliced in is left as it was. */
  method ListSplice(list: Node, head: Node, ghost s: seq<Node>, ghost t: seq<Node>)
    requires Ring(list, s) && Ring(head, t) && forall n <- [list] + s :: n !in [head] + t
    modifies Of(list.next)`prev, Of(list.prev)`next, head`next, Of(head.next)`prev
    ensures Ring(head, s + t) && (s == [] ==> Ring(list, []))
  {
    var empty := ListEmpty(list, s);
    if !empty { SpliceAfter(list, head, s, t); } else { assert s + t == t; }
  }

  /** list_splice_init */
  method ListSpliceInit(list: Node, head: Node, ghost s: seq<Node>, ghost t: seq<Node>)
    requires Ring(list, s) && Ring(head, t) && forall n <- [list] + s :: n !in [head] + t
    modifies list`next, list`prev, Of(list.next)`prev, Of(list.prev)`next, head`next, Of(head.next)`prev
    ensures Ring(head, s + t) && Ring(list, [])
  {
    var empty := ListEmpty(list, s);
    if !empty {
      SpliceAfter(list, head, s, t);
      SpliceDistinct(list, head, s, t);
      InitOff(list, head, s + t);
    } else { assert s + t == t; }
  }

  // ----- traversals -----

  /** list_capacity, cdcm_list_size */
  method ListCapacity(head: Node, ghost s: seq<Node>) returns (cntr: nat)
    requires Ring(head, s)
    ensures cntr == |s|
  {
    cntr := 0;
    var at := head;
    ghost var c := [head] + s + [head];
    RingCut(head, s, 0);
    while at.next != head
      invariant cntr <= |s| && at == c[cntr]
      invariant c[cntr].next == c[cntr + 1]
      decreases |s| - cntr
    {
      at := at.next;
      cntr := cntr + 1;
    }
  }

  /** list_idx: entry number idx, or the head if there is no such entry. */
  method ListIdx(head: Node, idx: int, ghost s: seq<Node>) returns (at: Node)
    requires Ring(head, s)
    ensures at == if 0 <= idx < |s| then s[idx] else head
  {
    var cntr := 0;
    ghost var c := [head] + s + [head];
    RingCut(head, s, 0);
    assert c[0].next == c[1];
    at := head.next;
    while at != head
      invariant 0 <= cntr <= |s| && at == c[cntr + 1] && !(0 <= idx < cntr)
      decreases |s| - cntr
    {
      assert cntr < |s| && c[cntr + 1] == s[cntr] && c[cntr + 1].next == c[cntr + 2];
      if cntr == idx { return; }
      cntr := cntr + 1;
      at := at.next;
    }
    HeadLast(head, s, cntr);
  }

  /** A walk is back at the head only after the last entry. */
  lemma {:induction false} HeadLast(head: Node, s: seq<Node>, k: nat)
    requires Distinct([head] + s) && k <= |s|
    ensures ([head] + s + [head])[k + 1] == head <==> k == |s|
  {
    var c := [head] + s;
    if k < |s| { assert c[0] == head && c[k + 1] == ([head] + s + [head])[k + 1]; }
  }
}
