/** The timer heap of an event loop: a binary heap of timers ordered by deadline, in
    which every armed timer knows its own position. */
module TimerHeaps {
  import opened Wrappers

  datatype Time = Time(sec: int, nsec: int)

  predicate TimeLt(a: Time, b: Time) {
    if a.sec != b.sec then a.sec < b.sec else a.nsec < b.nsec
  }

  /** a is not later than b. */
  predicate TimeLe(a: Time, b: Time) {
    !TimeLt(b, a)
  }

  class Timer {
    var deadline: Time
    var heapIdx: int      // position in the heap, -1 when disarmed
    var nextDue: Timer?   // link of the list of due timers
    var removed: bool     // the source was removed and must not be dispatched
    ghost var number: nat // how many timers of the loop were added before

    constructor (ghost n: nat)
      ensures heapIdx == -1 && nextDue == null && !removed && deadline == Time(0, 0) && number == n
    {
      deadline, heapIdx, nextDue, removed, number := Time(0, 0), -1, null, false, n;
    }
  }

  function Parent(i: int): int
    requires i > 0
  {
    (i - 1) / 2
  }

  // ------------------------------------------------- heap order on keys alone

  ghost predicate Ordered(k: seq<Time>) {
    forall i :: 0 < i < |k| ==> TimeLe(k[Parent(i)], k[i])
  }

  /** Heap order, except that nothing is known of the key at h, which may be anywhere:
      its children still fit under its parent. */
  ghost predicate OrderedBut(k: seq<Time>, h: nat) {
    && h < |k|
    && (forall i :: 0 < i < |k| && i != h && Parent(i) != h ==> TimeLe(k[Parent(i)], k[i]))
    && (forall i :: 0 < i < |k| && Parent(i) == h && h > 0 ==> TimeLe(k[Parent(h)], k[i]))
  }

  ghost predicate ChildrenFit(k: seq<Time>, h: nat)
    requires h < |k|
  {
    forall i :: 0 < i < |k| && Parent(i) == h ==> TimeLe(k[h], k[i])
  }

  ghost predicate ParentFits(k: seq<Time>, h: nat)
    requires h < |k|
  {
    h > 0 ==> TimeLe(k[Parent(h)], k[h])
  }

  lemma OrderedEverywhere(k: seq<Time>, h: nat)
    requires OrderedBut(k, h) && ChildrenFit(k, h) && ParentFits(k, h)
    ensures Ordered(k)
  {
  }

  lemma OrderedSomewhere(k: seq<Time>, h: nat, key: Time)
    requires Ordered(k) && h < |k|
    ensures OrderedBut(k[h := key], h)
  {
    forall i | 0 < i < |k| && Parent(i) == h && h > 0 ensures TimeLe(k[Parent(h)], k[i]) {
      assert TimeLe(k[h], k[i]) && TimeLe(k[Parent(h)], k[h]);
    }
  }

  /** Exchanging the key at h with a smaller child, no larger than the other child. */
  lemma DownStep(k: seq<Time>, h: nat, c: nat)
    requires OrderedBut(k, h) && 0 < c < |k| && Parent(c) == h && TimeLt(k[c], k[h])
    requires forall i :: 0 < i < |k| && Parent(i) == h ==> TimeLe(k[c], k[i])
    ensures OrderedBut(ExchangedKeys(k, h, c), c) && ParentFits(ExchangedKeys(k, h, c), c)
  {
  }

  /** Exchanging the key at h with its larger parent. */
  lemma UpStep(k: seq<Time>, h: nat)
    requires OrderedBut(k, h) && ChildrenFit(k, h) && h > 0 && TimeLt(k[h], k[Parent(h)])
    ensures var k' := ExchangedKeys(k, h, Parent(h));
            OrderedBut(k', Parent(h)) && ChildrenFit(k', Parent(h))
  {
  }

  /** The root is the earliest. */
  lemma {:induction false} RootIsEarliest(k: seq<Time>, i: nat)
    requires Ordered(k) && i < |k|
    ensures TimeLe(k[0], k[i])
  {
    if i > 0 {
      RootIsEarliest(k, Parent(i));
    }
  }

  // ---------------------------------------------------------- the heap array

  /** k lists the deadlines of the timers s. */
  ghost predicate HasKeys(s: seq<Timer>, k: seq<Time>)
    reads s`deadline
  {
    |k| == |s| && forall i :: 0 <= i < |s| ==> s[i].deadline == k[i]
  }

  ghost predicate PairwiseDistinct(s: seq<Timer>) {
    forall i, j :: 0 <= i < j < |s| ==> s[i] != s[j]
  }

  /** Except at the hole h, the array holds s and every timer knows its position. */
  ghost predicate LinkedBut(data: array<Timer?>, s: seq<Timer>, h: int)
    reads data, s`heapIdx
  {
    && |s| <= data.Length && PairwiseDistinct(s)
    && (forall i :: 0 <= i < |s| && i != h ==> data[i] == s[i] && s[i].heapIdx == i)
  }

  ghost predicate Linked(data: array<Timer?>, s: seq<Timer>)
    reads data, s`heapIdx
  {
    LinkedBut(data, s, -1)
  }

  lemma LinkedMembers(data: array<Timer?>, s: seq<Timer>)
    requires Linked(data, s)
    ensures forall t :: t in s ==> 0 <= t.heapIdx < |s| && s[t.heapIdx] == t
  {
  }

  /** s with the elements at h and c exchanged. */
  ghost function Exchanged(s: seq<Timer>, h: nat, c: nat): (t: seq<Timer>)
    requires h < |s| && c < |s|
  {
    s[h := s[c]][c := s[h]]
  }

  lemma ExchangedKeeps(s: seq<Timer>, h: nat, c: nat)
    requires h < |s| && c < |s| && PairwiseDistinct(s)
    ensures PairwiseDistinct(Exchanged(s, h, c)) && multiset(Exchanged(s, h, c)) == multiset(s)
  {
  }

  /** Puts a timer into a slot and returns the slot it says it comes from. */
  method HeapSet(data: array<Timer?>, a: Timer, idx: nat) returns (tmp: int)
    requires idx < data.Length
    modifies data, a`heapIdx
    ensures tmp == old(a.heapIdx) && a.heapIdx == idx && data[..] == old(data[..])[idx := a]
  {
    tmp := a.heapIdx;
    a.heapIdx := idx;
    data[a.heapIdx] := a;
  }

  ghost function ExchangedKeys(k: seq<Time>, h: nat, c: nat): (t: seq<Time>)
    requires h < |k| && c < |k|
  {
    k[h := k[c]][c := k[h]]
  }

  /** t is s with its elements moved around. */
  ghost predicate Rearranged(s: seq<Timer>, t: seq<Timer>) {
    |t| == |s| && multiset(t) == multiset(s)
  }

  ghost predicate Among(s: seq<Timer>, all: set<Timer>) {
    forall i :: 0 <= i < |s| ==> s[i] in all
  }

  lemma SameMembers(s: seq<Timer>, t: seq<Timer>)
    requires Rearranged(s, t)
    ensures forall x :: x in s <==> x in t
  {
    forall x ensures x in s <==> x in t {
      assert x in s <==> x in multiset(s);
    }
  }

  /** The child of a slot that sift-down compares with: the earlier one. */
  method EarlierChild(data: array<Timer?>, numActive: nat, cursor: nat, ghost s: seq<Timer>, ghost k: seq<Time>)
    returns (child: Timer)
    requires |s| == numActive && LinkedBut(data, s, cursor) && HasKeys(s, k) && 2 * cursor + 1 < numActive
    ensures var c := child.heapIdx;
            && 0 < c < numActive && Parent(c) == cursor && s[c] == child
            && forall i :: 0 < i < |k| && Parent(i) == cursor ==> TimeLe(k[c], k[i])
  {
    var lchild := cursor * 2 + 1;
    child := data[lchild];
    if lchild + 1 < numActive {
      var other := data[lchild + 1];
      if TimeLt(other.deadline, child.deadline) {
        child := other;
      }
    }
    assert forall i :: 0 < i && Parent(i) == cursor ==> i == lchild || i == lchild + 1;
  }

  /** Fills the hole at h with another timer, whose slot becomes the hole. */
  method MoveHole(data: array<Timer?>, a: Timer, h: nat, ghost s: seq<Timer>, ghost k: seq<Time>) returns (c: int)
    requires h < |s| && LinkedBut(data, s, h) && HasKeys(s, k)
    requires 0 <= a.heapIdx < |s| && a.heapIdx != h && s[a.heapIdx] == a
    modifies data, a`heapIdx
    ensures c == old(a.heapIdx) && data[|s|..] == old(data[|s|..])
    ensures var t := Exchanged(s, h, c);
            LinkedBut(data, t, c) && HasKeys(t, ExchangedKeys(k, h, c)) && Rearranged(s, t)
  {
    c := HeapSet(data, a, h);
    ExchangedKeeps(s, h, c);
  }

  /** Fills the hole for good. */
  method FillHole(data: array<Timer?>, a: Timer, h: nat, ghost s: seq<Timer>)
    requires h < |s| && LinkedBut(data, s, h) && s[h] == a
    modifies data, a`heapIdx
    ensures Linked(data, s) && a.heapIdx == h && data[|s|..] == old(data[|s|..])
  {
    var _ := HeapSet(data, a, h);
  }

  /** While a timer is sifted: t lists the timers as they would be with `source` in the
      hole at h; l are their deadlines. */
  ghost predicate Sifting(data: array<Timer?>, source: Timer, h: int, s: seq<Timer>, t: seq<Timer>, l: seq<Time>,
                          all: set<Timer>)
    reads data, t`heapIdx, t`deadline
  {
    && 0 <= h < |t| && t[h] == source && OrderedBut(l, h)
    && LinkedBut(data, t, h) && HasKeys(t, l) && Rearranged(s, t) && Among(t, all)
  }

  /** The hole moves down to an earlier child, no later than the other one. */
  method DownMove(data: array<Timer?>, child: Timer, source: Timer, h: nat, ghost s: seq<Timer>, ghost t: seq<Timer>,
                  ghost l: seq<Time>, ghost all: set<Timer>)
    returns (c: int, ghost t': seq<Timer>, ghost l': seq<Time>)
    requires Sifting(data, source, h, s, t, l, all) && 0 < child.heapIdx < |t| && t[child.heapIdx] == child
    requires Parent(child.heapIdx) == h && TimeLt(l[child.heapIdx], l[h])
    requires forall i :: 0 < i < |l| && Parent(i) == h ==> TimeLe(l[child.heapIdx], l[i])
    modifies data, child`heapIdx
    ensures Sifting(data, source, c, s, t', l', all) && data[|t|..] == old(data[|t|..])
    ensures h < c && ParentFits(l', c)
  {
    DownStep(l, h, child.heapIdx);
    c := MoveHole(data, child, h, t, l);
    t', l' := Exchanged(t, h, c), ExchangedKeys(l, h, c);
  }

  /** One round of sift-down, if there is an earlier child. */
  method DownOnce(data: array<Timer?>, numActive: nat, source: Timer, h: nat, ghost s: seq<Timer>,
                  ghost t: seq<Timer>, ghost l: seq<Time>, ghost all: set<Timer>)
    returns (c: int, ghost t': seq<Timer>, ghost l': seq<Time>)
    requires |t| == numActive && Sifting(data, source, h, s, t, l, all)
    modifies data, all`heapIdx
    ensures Sifting(data, source, c, s, t', l', all) && data[numActive..] == old(data[numActive..])
    ensures c == h ==> t' == t && l' == l && ChildrenFit(l, h)
    ensures c != h ==> h < c && ParentFits(l', c)
  {
    c, t', l' := h, t, l;
    if h * 2 + 1 >= numActive {
      return;
    }
    var child := EarlierChild(data, numActive, h, t, l);
    if TimeLt(child.deadline, source.deadline) {
      c, t', l' := DownMove(data, child, source, h, s, t, l, all);
    }
  }

  /** Moves a timer down past earlier children.  If it moves at all, it ends below an
      earlier parent. */
  method SiftDown(data: array<Timer?>, numActive: nat, source: Timer, ghost s: seq<Timer>, ghost k: seq<Time>,
                  ghost all: set<Timer>)
    returns (ghost t: seq<Timer>, ghost l: seq<Time>)
    requires |s| == numActive && Linked(data, s) && HasKeys(s, k) && Among(s, all) && source in s
    requires 0 <= source.heapIdx < numActive && OrderedBut(k, source.heapIdx)
    modifies data, all`heapIdx
    ensures Linked(data, t) && HasKeys(t, l) && Rearranged(s, t) && Among(t, all)
    ensures data[numActive..] == old(data[numActive..])
    ensures 0 <= source.heapIdx < numActive && t[source.heapIdx] == source
    ensures OrderedBut(l, source.heapIdx) && ChildrenFit(l, source.heapIdx)
    ensures source.heapIdx == old(source.heapIdx) ==> t == s
    ensures source.heapIdx != old(source.heapIdx) ==> ParentFits(l, source.heapIdx)
    ensures old(ParentFits(k, source.heapIdx)) ==> Ordered(l)
  {
    var cursor := source.heapIdx;
    ghost var start := cursor;
    t, l := s, k;
    while true
      invariant Sifting(data, source, cursor, s, t, l, all) && data[numActive..] == old(data[numActive..])
      invariant start <= cursor && (cursor == start ==> t == s && l == k) && (cursor != start ==> ParentFits(l, cursor))
      decreases numActive - cursor
    {
      var next;
      next, t, l := DownOnce(data, numActive, source, cursor, s, t, l, all);
      if next == cursor {
        break;
      }
      cursor := next;
    }
    if ParentFits(l, cursor) {
      OrderedEverywhere(l, cursor);
    }
    FillHole(data, source, cursor, t);
  }

  /** One round of sift-up, if the parent is later. */
  method UpOnce(data: array<Timer?>, source: Timer, h: nat, ghost s: seq<Timer>, ghost t: seq<Timer>,
                ghost l: seq<Time>, ghost all: set<Timer>)
    returns (c: int, ghost t': seq<Timer>, ghost l': seq<Time>)
    requires h > 0 && Sifting(data, source, h, s, t, l, all) && ChildrenFit(l, h)
    modifies data, all`heapIdx
    ensures Sifting(data, source, c, s, t', l', all) && ChildrenFit(l', c) && data[|s|..] == old(data[|s|..])
    ensures c == h ==> t' == t && l' == l && ParentFits(l, h)
    ensures c != h ==> c < h && !ParentFits(l, h)
  {
    c, t', l' := h, t, l;
    var parent := data[(h - 1) / 2];
    if TimeLt(source.deadline, parent.deadline) {
      UpStep(l, h);
      c := MoveHole(data, parent, h, t, l);
      t', l' := Exchanged(t, h, c), ExchangedKeys(l, h, c);
    }
  }

  /** Moves a timer up past later parents.  It stays where it is if its parent is no later. */
  method SiftUp(data: array<Timer?>, source: Timer, ghost s: seq<Timer>, ghost k: seq<Time>, ghost all: set<Timer>)
    returns (ghost t: seq<Timer>, ghost l: seq<Time>)
    requires Linked(data, s) && HasKeys(s, k) && Among(s, all) && source in s
    requires 0 <= source.heapIdx < |s| && OrderedBut(k, source.heapIdx) && ChildrenFit(k, source.heapIdx)
    modifies data, all`heapIdx
    ensures Linked(data, t) && HasKeys(t, l) && Rearranged(s, t) && Among(t, all) && data[|s|..] == old(data[|s|..])
    ensures Ordered(l)
    ensures old(ParentFits(k, source.heapIdx)) ==> t == s
  {
    var cursor := source.heapIdx;
    ghost var start := cursor;
    t, l := s, k;
    while cursor > 0
      invariant Sifting(data, source, cursor, s, t, l, all) && ChildrenFit(l, cursor) && data[|s|..] == old(data[|s|..])
      invariant (cursor == start ==> t == s && l == k) && (cursor != start ==> !ParentFits(k, start))
      invariant cursor <= start
      decreases cursor
    {
      var next;
      next, t, l := UpOnce(data, source, cursor, s, t, l, all);
      if next == cursor {
        break;
      }
      cursor := next;
    }
    OrderedEverywhere(l, cursor);
    FillHole(data, source, cursor, t);
  }

  /** Settles a timer that was put into a slot in the middle: it goes down or up, but
      never both. */
  method Resettle(data: array<Timer?>, numActive: nat, source: Timer, ghost s: seq<Timer>, ghost k: seq<Time>,
                  ghost all: set<Timer>)
    returns (ghost t: seq<Timer>, ghost l: seq<Time>, ghost down: bool, ghost up: bool)
    requires |s| == numActive && Linked(data, s) && HasKeys(s, k) && Among(s, all) && source in s
    requires 0 <= source.heapIdx < numActive && OrderedBut(k, source.heapIdx)
    modifies data, all`heapIdx
    ensures Linked(data, t) && HasKeys(t, l) && Rearranged(s, t) && Among(t, all) && Ordered(l)
    ensures data[numActive..] == old(data[numActive..])
    ensures !(down && up) && (!down && !up ==> t == s)
  {
    ghost var t1, l1 := SiftDown(data, numActive, source, s, k, all);
    down := t1 != s;
    SameMembers(s, t1);
    t, l := SiftUp(data, source, t1, l1, all);
    up := t != t1;
  }

  // ------------------------------------------------------------------ the heap

  /** Distinct members of a set are no more than the set has. */
  lemma {:induction false} Pigeonhole(s: seq<Timer>, all: set<Timer>)
    requires PairwiseDistinct(s) && Among(s, all)
    ensures |s| <= |all|
  {
    if s != [] {
      var n := |s| - 1;
      Pigeonhole(s[..n], all - {s[n]});
    }
  }

  lemma OrderedPrefix(k: seq<Time>, n: nat)
    requires Ordered(k) && n <= |k|
    ensures Ordered(k[..n])
  {
  }

  /** The armed ones of some timers. */
  ghost function ArmedOf(timers: set<Timer>): (a: set<Timer>)
    reads timers`heapIdx
  {
    set t | t in timers && t.heapIdx >= 0
  }

  lemma ArmedWith(timers: set<Timer>, t: Timer)
    requires t.heapIdx < 0
    ensures ArmedOf(timers + {t}) == ArmedOf(timers)
  {
  }

  class TimerHeap {
    var data: array<Timer?>
    var active: nat
    var count: nat
    var timerfd: Option<Time>  // when the timerfd goes off, if it is armed
    ghost var timers: set<Timer>
    ghost var order: seq<Timer>  // the armed timers as the array holds them
    ghost var keys: seq<Time>    // and their deadlines
    ghost var ops: nat           // timers added and removed so far
    ghost var moved: nat         // elements copied by reallocations so far

    /** The armed timers form a heap and know their slots; the others say -1. */
    ghost predicate HeapOk()
      reads this`data, this`active, this`count, this`timers, this`order, this`keys, data
      reads timers`heapIdx, timers`deadline, timers`removed, order`heapIdx, order`deadline
    {
      && |order| == active <= count == |timers| && count <= data.Length
      && Linked(data, order) && HasKeys(order, keys) && Ordered(keys)
      && Among(order, timers)
      && (forall t :: t in timers ==> !t.removed && (t in order || t.heapIdx == -1))
    }

    /** The timerfd goes off no later than the earliest deadline, or is off if none is armed. */
    ghost predicate FdOk()
      reads this`active, this`timerfd, this`timers, timers`heapIdx, timers`deadline
    {
      if active == 0 then timerfd == None
      else timerfd.Some? && forall t :: t in Armed() ==> TimeLe(timerfd.value, t.deadline)
    }

    /** The armed timers. */
    ghost function Armed(): (a: set<Timer>)
      reads this`timers, timers`heapIdx
    {
      ArmedOf(timers)
    }

    /** The first half of a disarm: the timer's slot goes to the last timer. */
    method Unlink(source: Timer) returns (last: Timer, ghost s: seq<Timer>, ghost k: seq<Time>)
      requires HeapOk() && source in order
      modifies this`active, data, {source, order[active - 1]}`heapIdx, source`deadline
      ensures 0 <= old(source.heapIdx) < old(active) && order[old(source.heapIdx)] == source
      ensures active == old(active) - 1 == |s| && s == Without(order, old(source.heapIdx))
      ensures Linked(data, s) && HasKeys(s, k) && last == order[active]
      ensures last == source ==> Ordered(k)
      ensures last != source ==>
                last.heapIdx == old(source.heapIdx) < active && s[last.heapIdx] == last && OrderedBut(k, last.heapIdx)
      ensures source.heapIdx == -1
    {
      ArmedIsOrder();
      var oldIdx := source.heapIdx;
      source.heapIdx := -1;
      source.deadline := Time(0, 0);
      last := data[active - 1];
      data[active - 1] := null;
      active := active - 1;
      s, k := Without(order, oldIdx), keys[..active];
      OrderedPrefix(keys, active);
      if oldIdx == active {
        return;
      }
      data[oldIdx] := last;
      last.heapIdx := oldIdx;
      OrderedSomewhere(k, oldIdx, last.deadline);
      k := k[oldIdx := last.deadline];
    }

    lemma ArmedIsOrder()
      requires HeapOk()
      ensures forall t :: t in Armed() <==> t in order
      ensures forall t :: t in order ==> 0 <= t.heapIdx < active && order[t.heapIdx] == t
    {
      LinkedMembers(data, order);
    }

    method Detach(source: Timer)
      requires HeapOk() && source in order
      modifies this`active, this`order, this`keys, data, order`heapIdx, source`deadline
      ensures active == old(active) - 1 == |order|
      ensures Linked(data, order) && HasKeys(order, keys) && Ordered(keys) && source.heapIdx == -1
      ensures forall t :: t in order <==> t in old(order) && t != source
    {
      ArmedIsOrder();
      WithoutMembers(order, source.heapIdx);
      var last;
      ghost var s, k;
      last, s, k := Unlink(source);
      if last == source {
        order, keys := s, k;
      } else {
        Settle(last, s, k);
      }
    }

    /** Takes a timer out of any slot; the last one fills the hole. */
    method Disarm(source: Timer)
      requires HeapOk() && source in timers && source.heapIdx >= 0
      modifies this`active, this`order, this`keys, data, order`heapIdx, source`deadline
      ensures HeapOk() && Armed() == old(Armed()) - {source} && source.heapIdx == -1 && active == old(active) - 1
    {
      ArmedIsOrder();
      Detach(source);
      assert forall i :: 0 <= i < |order| ==> order[i] in order;
      ArmedIsOrder();
    }

    /** The sifting at the end of a disarm. */
    method Settle(last: Timer, ghost s: seq<Timer>, ghost k: seq<Time>)
      requires |s| == active <= data.Length && Linked(data, s) && HasKeys(s, k) && last in s
      requires 0 <= last.heapIdx < active && OrderedBut(k, last.heapIdx)
      modifies this`order, this`keys, data, s`heapIdx
      ensures |order| == active && Linked(data, order) && HasKeys(order, keys) && Ordered(keys)
      ensures forall x :: x in s <==> x in order
    {
      ghost var down, up;
      order, keys, down, up := Resettle(data, active, last, s, k, set x | x in s);
      SameMembers(s, order);
    }

    /** An unarmed timer leaves room in the array: the armed ones are fewer than all. */
    lemma RoomToArm(source: Timer)
      requires HeapOk() && source in timers && source.heapIdx == -1
      ensures active < count && source !in order
    {
      ArmedIsOrder();
      Pigeonhole(order, timers - {source});
    }

    /** Writes a timer into the first unused slot. */
    method Append(source: Timer, deadline: Time)
      requires HeapOk() && source !in order && active < data.Length
      modifies this`active, data, source`heapIdx, source`deadline
      ensures active == old(active) + 1 && source.heapIdx == old(active)
      ensures Linked(data, order + [source]) && HasKeys(order + [source], keys + [deadline])
      ensures source.deadline == deadline
    {
      source.deadline := deadline;
      data[active] := source;
      source.heapIdx := active;
      active := active + 1;
    }

    /** Appends a timer to the heap and sifts it up. */
    method Attach(source: Timer, deadline: Time)
      requires HeapOk() && source in timers && source !in order && active < data.Length
      modifies this`active, this`order, this`keys, data, order`heapIdx, source`heapIdx, source`deadline
      ensures active == old(active) + 1 == |order|
      ensures Linked(data, order) && HasKeys(order, keys) && Ordered(keys) && source.deadline == deadline
      ensures forall t :: t in order <==> t in old(order) || t == source
    {
      OrderedAppend(keys, deadline);
      Append(source, deadline);
      SiftNew(source, order + [source], keys + [deadline]);
    }

    method SiftNew(source: Timer, ghost s: seq<Timer>, ghost k: seq<Time>)
      requires |s| == active && Linked(data, s) && HasKeys(s, k) && source in s
      requires source.heapIdx == active - 1 && OrderedBut(k, active - 1) && ChildrenFit(k, active - 1)
      modifies this`order, this`keys, data, s`heapIdx
      ensures |order| == active && Linked(data, order) && HasKeys(order, keys) && Ordered(keys)
      ensures forall x :: x in s <==> x in order
    {
      order, keys := SiftUp(data, source, s, k, set x | x in s);
      SameMembers(s, order);
    }

    /** Puts an unarmed timer into the heap. */
    method Arm(source: Timer, deadline: Time)
      requires HeapOk() && source in timers && source.heapIdx == -1
      modifies this`active, this`order, this`keys, data, order`heapIdx, source`heapIdx, source`deadline
      ensures HeapOk() && Armed() == old(Armed()) + {source} && source.deadline == deadline
    {
      RoomToArm(source);
      ArmedIsOrder();
      Attach(source, deadline);
      assert forall i :: 0 <= i < |order| ==> order[i] in order;
      ArmedIsOrder();
    }

    /** Gives an armed timer an earlier deadline. */
    method Advance(source: Timer, deadline: Time)
      requires HeapOk() && source in order && TimeLt(deadline, source.deadline)
      modifies this`order, this`keys, data, order`heapIdx, source`deadline
      ensures |order| == active && Linked(data, order) && HasKeys(order, keys) && Ordered(keys)
      ensures source.deadline == deadline
      ensures forall x :: x in order <==> x in old(order)
    {
      ArmedIsOrder();
      ghost var h, s := source.heapIdx, order;
      OrderedSomewhere(keys, h, deadline);
      EarlierFits(keys, h, deadline);
      source.deadline := deadline;
      order, keys := SiftUp(data, source, s, keys[h := deadline], set x | x in s);
      SameMembers(s, order);
    }

    /** The order after a rearrangement. */
    ghost method Adopt(t: seq<Timer>, l: seq<Time>)
      requires Linked(data, t) && HasKeys(t, l) && Ordered(l)
      modifies this`order, this`keys
      ensures order == t && keys == l
      ensures Linked(data, order) && HasKeys(order, keys) && Ordered(keys)
    {
      order, keys := t, l;
    }

    /** Gives an armed timer a deadline that is not earlier. */
    method Postpone(source: Timer, deadline: Time)
      requires HeapOk() && source in order && !TimeLt(deadline, source.deadline)
      modifies this`order, this`keys, data, order`heapIdx, source`deadline
      ensures |order| == active && Linked(data, order) && HasKeys(order, keys) && Ordered(keys)
      ensures source.deadline == deadline
      ensures forall x :: x in order <==> x in old(order)
    {
      ArmedIsOrder();
      ghost var h, s := source.heapIdx, order;
      OrderedSomewhere(keys, h, deadline);
      LaterFits(keys, h, deadline);
      source.deadline := deadline;
      ghost var t, l := SiftDown(data, active, source, s, keys[h := deadline], set x | x in s);
      SameMembers(s, t);
      Adopt(t, l);
    }

    /** HeapOk after the armed timers were only moved around. */
    method Reposition(source: Timer, deadline: Time)
      requires HeapOk() && source in timers && source.heapIdx >= 0
      modifies this`order, this`keys, data, order`heapIdx, source`deadline
      ensures HeapOk() && Armed() == old(Armed()) && source.deadline == deadline
    {
      ArmedIsOrder();
      if TimeLt(deadline, source.deadline) {
        Advance(source, deadline);
      } else {
        Postpone(source, deadline);
      }
      assert forall i :: 0 <= i < |order| ==> order[i] in order;
      ArmedIsOrder();
    }

    /** The root of the heap has the earliest deadline of all armed timers. */
    lemma RootFirst()
      requires HeapOk()
      ensures active > 0 ==> order[0] in Armed() && forall t :: t in Armed() ==> TimeLe(order[0].deadline, t.deadline)
    {
      ArmedIsOrder();
      if active > 0 {
        assert order[0] in order;
        forall t | t in Armed() ensures TimeLe(order[0].deadline, t.deadline) {
          RootIsEarliest(keys, t.heapIdx);
        }
      }
    }

    method ArmOrMove(source: Timer, deadline: Time)
      requires HeapOk() && source in timers
      modifies this`active, this`order, this`keys, data, order`heapIdx, source`heapIdx, source`deadline
      ensures HeapOk() && Armed() == old(Armed()) + {source} && source.deadline == deadline
    {
      if source.heapIdx == -1 {
        Arm(source, deadline);
      } else {
        Reposition(source, deadline);
      }
    }

    /** Arms or moves a timer; the timerfd is touched only if the timer is now the earliest. */
    method SetDeadline(source: Timer, deadline: Time)
      requires HeapOk() && FdOk() && source in timers
      modifies this`active, this`order, this`keys, this`timerfd, data, order`heapIdx, source`heapIdx, source`deadline
      ensures HeapOk() && FdOk() && Armed() == old(Armed()) + {source} && source.deadline == deadline
    {
      ArmOrMove(source, deadline);
      RootFirst();
      if source.heapIdx == 0 {
        timerfd := Some(deadline);
        RootIs(source);
      } else {
        RootIsNot(source);
      }
    }

    lemma RootIs(source: Timer)
      requires HeapOk() && source in timers && source.heapIdx == 0
      ensures active > 0 && order[0] == source
    {
      ArmedIsOrder();
    }

    lemma RootIsNot(source: Timer)
      requires HeapOk() && source in timers && source.heapIdx > 0
      ensures active > 0 && order[0] != source
    {
      ArmedIsOrder();
    }

    /** Disarms a timer if it is armed; the timerfd is touched only if it was the last. */
    method Stop(source: Timer)
      requires HeapOk() && FdOk() && source in timers
      modifies this`active, this`order, this`keys, this`timerfd, data, order`heapIdx, source`deadline
      ensures HeapOk() && FdOk() && Armed() == old(Armed()) - {source}
      ensures source.heapIdx == -1
    {
      ArmedIsOrder();
      if source.heapIdx == -1 {
        return;
      }
      Disarm(source);
      if active == 0 {
        timerfd := None;
      }
    }

    /** Arms the timer to go off ms milliseconds after now, or disarms it if ms is not
        positive. */
    method Update(source: Timer, ms: int, now: Time)
      requires HeapOk() && FdOk() && source in timers
      modifies this`active, this`order, this`keys, this`timerfd, data, order`heapIdx, source`heapIdx, source`deadline
      ensures HeapOk() && FdOk()
      ensures ms > 0 ==> Armed() == old(Armed()) + {source} && source.deadline == DeadlineAfter(now, ms)
      ensures ms <= 0 ==> Armed() == old(Armed()) - {source} && source.heapIdx == -1
    {
      if ms > 0 {
        SetDeadline(source, DeadlineAfter(now, ms));
      } else {
        Stop(source);
      }
    }

    // ------------------------------------------------------------- the capacity

    /** All reallocations so far copied at most six elements per timer added or removed;
        what is not yet used up pays for the next one. */
    ghost predicate CapacityOk()
      reads this`data, this`count, this`ops, this`moved
    {
      && (data.Length == 0 || Doubled(data.Length))
      && moved + Slack(count, data.Length) <= 6 * ops
    }

    ghost predicate Valid()
      reads this, data, timers`heapIdx, timers`deadline, timers`removed, order`heapIdx, order`deadline
    {
      HeapOk() && FdOk() && CapacityOk()
    }

    constructor ()
      ensures Valid() && timers == {} && fresh(data) && ops == moved == 0
    {
      data := new Timer?[0];
      active, count, timerfd := 0, 0, None;
      timers, order, keys := {}, [], [];
      ops, moved := 0, 0;
    }

    /** Reallocates the array; the slots in use must fit. */
    method Resize(space: nat)
      requires Linked(data, order) && |order| <= space
      modifies this`data, this`moved
      ensures fresh(data) && data.Length == space && Linked(data, order)
      ensures moved == old(moved) + (if space < old(data.Length) then space else old(data.Length))
    {
      var kept := if space < data.Length then space else data.Length;
      var n := new Timer?[space];
      forall i | 0 <= i < kept {
        n[i] := data[i];
      }
      data := n;
      moved := moved + kept;
    }

    /** Makes room for one more timer; the array doubles when it is full. */
    method Reserve()
      requires Linked(data, order) && |order| <= count <= data.Length && CapacityOk()
      modifies this`data, this`count, this`ops, this`moved
      ensures Linked(data, order) && count == old(count) + 1 <= data.Length && CapacityOk()
      ensures data == old(data) || fresh(data)
      ensures ops == old(ops) + 1
      ensures moved == old(moved) + (if old(count) == old(data.Length) then old(count) else 0)
    {
      GrowPays(count, data.Length);
      if count + 1 > data.Length {
        Resize(if data.Length >= 8 then data.Length * 2 else 8);
      }
      count := count + 1;
      ops := ops + 1;
    }

    /** Creates a timer and makes room for it. */
    method AddTimer(ghost number: nat) returns (t: Timer)
      requires Valid()
      modifies this`data, this`count, this`timers, this`ops, this`moved
      ensures Valid() && fresh(t) && timers == old(timers) + {t} && Armed() == old(Armed())
      ensures data == old(data) || fresh(data)
      ensures ops == old(ops) + 1 && t.heapIdx == -1 && !t.removed && t.number == number
    {
      t := new Timer(number);
      Reserve();
      Enroll(t);
    }

    /** A timer for which there is room joins the others. */
    method Enroll(t: Timer)
      requires t !in timers && !t.removed && t.heapIdx == -1 && Among(order, timers)
      requires |order| == active <= |timers| && count == |timers| + 1 <= data.Length
      requires Linked(data, order) && HasKeys(order, keys) && Ordered(keys)
      requires forall x :: x in timers ==> !x.removed && (x in order || x.heapIdx == -1)
      requires FdOk()
      modifies this`timers
      ensures HeapOk() && FdOk() && timers == old(timers) + {t} && Armed() == old(Armed())
    {
      ArmedWith(timers, t);
      assert |timers + {t}| == |timers| + 1;
      timers := timers + {t};
    }

    /** Gives back the room of a timer; the array shrinks when three quarters are unused. */
    method Unreserve(source: Timer)
      requires Valid() && source in timers && source.heapIdx == -1
      modifies this`data, this`count, this`timers, this`ops, this`moved
      ensures HeapOk() && FdOk() && CapacityOk() && timers == old(timers) - {source} && Armed() == old(Armed())
      ensures data == old(data) || fresh(data)
      ensures ops == old(ops) + 1
      ensures moved == old(moved) + (if data == old(data) then 0 else data.Length)
      ensures data != old(data) <==> old(data.Length) >= 16 && old(data.Length) >= 4 * (old(count) - 1)
      ensures data != old(data) ==> data.Length == old(data.Length) / 2
    {
      RoomToArm(source);
      count := count - 1;
      ops := ops + 1;
      timers := timers - {source};
      ShrinkPays(count, data.Length);
      if data.Length >= 16 && data.Length >= 4 * count {
        Resize(data.Length / 2);
      }
    }

    /** Removes a timer: it is disarmed, loses its room and is marked as not to be dispatched. */
    method RemoveTimer(source: Timer)
      requires Valid() && source in timers
      modifies this`active, this`order, this`keys, this`timerfd, data, order`heapIdx, source`deadline
      modifies this`data, this`count, this`timers, this`ops, this`moved, source`removed
      ensures Valid() && timers == old(timers) - {source} && Armed() == old(Armed()) - {source}
      ensures source.removed && source.heapIdx == -1 && ops == old(ops) + 1 && (data == old(data) || fresh(data))
    {
      Stop(source);
      Unreserve(source);
      source.removed := true;
    }

    // ------------------------------------------------------------------ dispatch

    /** The armed timers with their deadlines. */
    ghost function Pending(): (p: map<Timer, Time>)
      reads this`timers, timers`heapIdx, timers`deadline
      ensures p.Keys == Armed()
    {
      map t | t in Armed() :: t.deadline
    }

    /** Takes out the root. */
    method PopRoot(root: Timer)
      requires HeapOk() && active > 0 && root == order[0]
      modifies this`active, this`order, this`keys, data, order`heapIdx, root`deadline
      ensures HeapOk() && root in timers && active < old(active)
      ensures old(IsEarliest(root, Pending())) && Pending() == old(Pending()) - {root}
      ensures old(Pending())[root] == old(root.deadline)
    {
      RootFirst();
      ArmedIsOrder();
      Disarm(root);
    }

    /** Hangs a timer onto the end of the list. */
    method Hang(first: Timer?, tail: Timer?, root: Timer, ghost due: seq<Timer>) returns (first': Timer?, tail': Timer)
      requires HeapOk() && IsList(first, tail, due) && PairwiseDistinct(due) && root !in due
      modifies due`nextDue
      ensures IsList(first', tail', due + [root])
      ensures HeapOk() && Pending() == old(Pending())
    {
      first' := first;
      if first == null {
        first' := root;
      } else {
        tail.nextDue := root;
      }
      tail' := root;
    }

    /** Takes out the root, which is due, and hangs it onto the list. */
    method CollectRoot(root: Timer, first: Timer?, tail: Timer?, ghost due: seq<Timer>)
      returns (first': Timer?, tail': Timer)
      requires HeapOk() && active > 0 && root == order[0] && root !in due
      requires IsList(first, tail, due) && Among(due, timers) && PairwiseDistinct(due)
      modifies this`active, this`order, this`keys, data, timers`heapIdx, root`deadline, timers`nextDue
      ensures HeapOk() && root in timers && active < old(active)
      ensures old(IsEarliest(root, Pending())) && Pending() == old(Pending()) - {root}
      ensures old(Pending())[root] == old(root.deadline)
      ensures IsList(first', tail', due + [root])
    {
      assert Among(order, timers);
      PopRoot(root);
      first', tail' := Hang(first, tail, root, due);
    }

    /** Takes out due timers until there are none. */
    method CollectAll(now: Time) returns (first: Timer?, tail: Timer?, ghost due: seq<Timer>)
      requires HeapOk()
      modifies this`active, this`order, this`keys, data, timers`heapIdx, timers`deadline, timers`nextDue
      ensures HeapOk() && Popped(old(Pending()), Pending(), due, now) && NoneDue(Pending(), now)
      ensures IsList(first, tail, due)
    {
      first, tail, due := null, null, [];
      ghost var armed, still := Pending(), Pending();
      while active > 0
        invariant HeapOk() && still == Pending() && Popped(armed, still, due, now)
        invariant IsList(first, tail, due) && Among(due, timers)
        decreases active
      {
        var root := data[0];
        if TimeLt(now, root.deadline) {
          NoneDueYet(root, now);
          return;
        }
        RootNotDue(now, armed, due);
        first, tail := CollectRoot(root, first, tail, due);
        PoppedNext(armed, still, still - {root}, due, root, now);
        due, still := due + [root], still - {root};
      }
      ArmedIsOrder();
    }

    /** The root was not taken out before. */
    lemma RootNotDue(now: Time, armed: map<Timer, Time>, due: seq<Timer>)
      requires HeapOk() && active > 0 && Popped(armed, Pending(), due, now)
      ensures order[0] in timers && order[0] !in due
    {
      ArmedIsOrder();
      assert order[0] in Pending();
    }

    lemma NoneDueYet(root: Timer, now: Time)
      requires HeapOk() && active > 0 && root == order[0] && TimeLt(now, root.deadline)
      ensures NoneDue(Pending(), now)
    {
      RootFirst();
    }

    /** Ends the list of due timers. */
    method Finish(first: Timer?, tail: Timer?, ghost due: seq<Timer>)
      requires HeapOk() && IsList(first, tail, due) && PairwiseDistinct(due)
      modifies due`nextDue
      ensures HeapOk() && Pending() == old(Pending()) && Chain(first, due, null)
    {
      EndList(first, tail, due);
    }

    /** Takes out every timer that is due, earliest first, into a linked list. */
    method CollectDue(now: Time) returns (first: Timer?, ghost due: seq<Timer>)
      requires HeapOk()
      modifies this`active, this`order, this`keys, data, timers`heapIdx, timers`deadline, timers`nextDue
      ensures HeapOk() && Chain(first, due, null)
      ensures Popped(old(Pending()), Pending(), due, now) && NoneDue(Pending(), now)
    {
      var tail;
      first, tail, due := CollectAll(now);
      Finish(first, tail, due);
    }

    // ----------------------------------------------------------------- callbacks

    /** `made` lists all timers ever added, in the order in which they were added, and the table
        `slots` says what has become of them. */
    ghost predicate Known(made: seq<Timer>, slots: seq<Slot>)
      reads this`timers, this`count, this`ops, made`removed, made`heapIdx, made`deadline, made`number
      reads timers`number
    {
      && Shows(made, slots) && ops + count == 2 * |made|
      && (forall i :: 0 <= i < |made| ==> (made[i] in timers <==> !made[i].removed))
      && (forall i :: 0 <= i < |made| && made[i].removed ==> made[i].heapIdx == -1)
      && (forall t :: t in timers ==> IsIn(t, made))
    }

    ghost predicate Represents(made: seq<Timer>, slots: seq<Slot>)
      reads this, data, timers`heapIdx, timers`deadline, timers`removed, order`heapIdx, order`deadline
      reads timers`number, made`removed, made`heapIdx, made`deadline, made`number
    {
      Valid() && Known(made, slots)
    }

    method PerformAdd(made: seq<Timer>, ghost slots: seq<Slot>) returns (made': seq<Timer>)
      requires Represents(made, slots)
      modifies this`data, this`count, this`timers, this`ops, this`moved
      ensures Represents(made', slots + [Slot(true, None)]) && (data == old(data) || fresh(data))
      ensures made <= made' && fresh(timers - old(timers))
    {
      var t := AddTimer(|made|);
      made' := made + [t];
    }

    method PerformUpdate(who: nat, ms: int, now: Time, made: seq<Timer>, ghost slots: seq<Slot>)
      requires Represents(made, slots) && Live(slots, who)
      modifies this`active, this`order, this`keys, this`timerfd, data, timers`heapIdx, timers`deadline
      ensures Represents(made, Apply(slots, UpdateOp(who, ms, now)))
    {
      assert Among(order, timers);
      Update(made[who], ms, now);
      ghost var slots' := Apply(slots, UpdateOp(who, ms, now));
      forall i | 0 <= i < |made| ensures slots'[i] == SlotOf(made[i]) {
        assert slots[i] == old(SlotOf(made[i]));
        assert made[i] in Armed() <==> made[i] in timers && made[i].heapIdx >= 0;
      }
    }

    method PerformRemove(who: nat, made: seq<Timer>, ghost slots: seq<Slot>)
      requires Represents(made, slots) && Live(slots, who)
      modifies this, data, timers`heapIdx, timers`deadline, timers`removed
      ensures Represents(made, Apply(slots, RemoveOp(who))) && (data == old(data) || fresh(data))
      ensures timers <= old(timers)
    {
      assert Among(order, timers);
      RemoveTimer(made[who]);
      ghost var slots' := Apply(slots, RemoveOp(who));
      forall i | 0 <= i < |made| ensures slots'[i] == SlotOf(made[i]) {
        assert slots[i] == old(SlotOf(made[i]));
        assert made[i] in Armed() <==> made[i] in timers && made[i].heapIdx >= 0;
      }
    }

    /** One thing that a program does to the timers. */
    method Perform(op: TimerOp, made: seq<Timer>, ghost slots: seq<Slot>) returns (made': seq<Timer>)
      requires Represents(made, slots)
      modifies this, data, timers`heapIdx, timers`deadline, timers`removed
      ensures Represents(made', Apply(slots, op)) && made <= made'
      ensures (data == old(data) || fresh(data)) && fresh(timers - old(timers))
    {
      made' := made;
      match op {
        case AddOp => made' := PerformAdd(made, slots);
        case UpdateOp(who, ms, now) =>
          if who < |made| && !made[who].removed {
            PerformUpdate(who, ms, now, made, slots);
          }
        case RemoveOp(who) =>
          if who < |made| && !made[who].removed {
            PerformRemove(who, made, slots);
          }
      }
    }

    /** A whole callback. */
    method Callback(ops: seq<TimerOp>, made: seq<Timer>, ghost slots: seq<Slot>) returns (made': seq<Timer>)
      requires Represents(made, slots)
      modifies this, data, timers`heapIdx, timers`deadline, timers`removed
      ensures Represents(made', ApplyAll(slots, ops)) && made <= made'
      ensures (data == old(data) || fresh(data)) && fresh(timers - old(timers))
    {
      made' := made;
      for i := 0 to |ops|
        invariant Represents(made', ApplyAll(slots, ops[..i])) && made <= made'
        invariant (data == old(data) || fresh(data)) && fresh(timers - old(timers))
      {
        assert ops[..i + 1][..i] == ops[..i];
        made' := Perform(ops[i], made', ApplyAll(slots, ops[..i]));
      }
      assert ops[..|ops|] == ops;
    }

    /** Runs the callback of a due timer, unless an earlier callback removed it. */
    method Fire(timer: Timer, script: seq<seq<TimerOp>>, fired: seq<Timer>, made: seq<Timer>,
                ghost who: nat, ghost slots: seq<Slot>)
      returns (fired': seq<Timer>, made': seq<Timer>, ghost slots': seq<Slot>)
      requires Represents(made, slots) && who < |made| && timer == made[who]
      modifies this, data, timers`heapIdx, timers`deadline, timers`removed
      ensures Represents(made', slots') && made <= made'
      ensures (data == old(data) || fresh(data)) && fresh(timers - old(timers))
      ensures if Live(slots, who) then fired' == fired + [timer] && slots' == ApplyAll(slots, Body(script, |fired|))
              else fired' == fired && slots' == slots
    {
      fired', made', slots' := fired, made, slots;
      if !timer.removed {
        var ops := Body(script, |fired|);
        made' := Callback(ops, made, slots);
        fired', slots' := fired + [timer], ApplyAll(slots, ops);
      }
    }

    /** Runs the callbacks of the due timers, skipping those removed by earlier callbacks.
        `script` says what the callbacks do, one after the other. */
    method RunCallbacks(first: Timer?, script: seq<seq<TimerOp>>, made: seq<Timer>,
                        ghost chain: seq<Timer>, ghost due: seq<nat>, ghost slots: seq<Slot>)
      returns (fired: seq<Timer>, made': seq<Timer>)
      requires Represents(made, slots) && Chain(first, chain, null) && Lists(chain, made, due)
      modifies this, data, timers`heapIdx, timers`deadline, timers`removed
      ensures Represents(made', AfterCalls(slots, due, script, 0)) && made <= made'
      ensures Lists(fired, made', Called(slots, due, script, 0))
      ensures (data == old(data) || fresh(data)) && fresh(timers - old(timers))
    {
      fired, made' := [], made;
      ghost var w := Calls(slots, due, []);
      ghost var rest := chain;
      var cursor := first;
      while cursor != null
        invariant Represents(made', w.slots) && made <= made' && Calling(cursor, rest, fired, made', w)
        invariant (data == old(data) || fresh(data)) && fresh(timers - old(timers))
        invariant Leads(slots, due, script, w)
        decreases |rest|
      {
        ghost var before := w;
        cursor, fired, made', w := CallNext(cursor, script, fired, made', rest, w);
        LeadsOn(slots, due, script, before);
        rest := rest[1..];
      }
    }

    /** The first timer of those left has its turn. */
    method CallNext(timer: Timer, script: seq<seq<TimerOp>>, fired: seq<Timer>, made: seq<Timer>,
                    ghost rest: seq<Timer>, ghost w: Calls)
      returns (cursor: Timer?, fired': seq<Timer>, made': seq<Timer>, ghost w': Calls)
      requires Represents(made, w.slots) && Calling(timer, rest, fired, made, w)
      modifies this, data, timers`heapIdx, timers`deadline, timers`removed
      ensures Represents(made', w'.slots) && made <= made'
      ensures rest != [] && Calling(cursor, rest[1..], fired', made', w')
      ensures (data == old(data) || fresh(data)) && fresh(timers - old(timers))
      ensures w.left != [] && w' == NextCall(w, script)
    {
      FirstLeft(timer, rest, fired, made, w);
      ghost var slots;
      fired', made', slots := Fire(timer, script, fired, made, w.left[0], w.slots);
      cursor, w' := timer.nextDue, NextCall(w, script);
      CallingNext(timer, script, rest, fired, fired', made, made', w);
    }

    /** The table and the armed timers agree. */
    lemma PendingShown(made: seq<Timer>, slots: seq<Slot>)
      requires Known(made, slots)
      ensures Agree(Pending(), made, slots)
    {
      assert forall t :: t in Pending() ==> t in timers;
    }

    /** The other way round. */
    lemma ShownPending(made: seq<Timer>, slots: seq<Slot>)
      requires Numbered(made) && Agree(Pending(), made, slots) && ops + count == 2 * |made|
      requires forall i :: 0 <= i < |made| ==> slots[i].live == !made[i].removed
      requires forall i :: 0 <= i < |made| ==> (made[i] in timers <==> !made[i].removed)
      requires forall i :: 0 <= i < |made| && made[i].removed ==> made[i].heapIdx == -1
      requires forall t :: t in timers ==> IsIn(t, made)
      ensures Known(made, slots)
    {
      forall i | 0 <= i < |made| ensures slots[i] == SlotOf(made[i]) {
        assert made[i] in Pending() <==> made[i] in timers && made[i].heapIdx >= 0;
      }
    }

    /** Takes out the due timers, earliest first. */
    method Collect(now: Time, made: seq<Timer>, ghost slots: seq<Slot>)
      returns (first: Timer?, ghost chain: seq<Timer>, ghost due: seq<nat>)
      requires HeapOk() && Known(made, slots)
      modifies this`active, this`order, this`keys, data, timers`heapIdx, timers`deadline, timers`nextDue
      ensures HeapOk() && Known(made, Disarmed(slots, due)) && IsDue(slots, due, now)
      ensures Chain(first, chain, null) && Lists(chain, made, due)
    {
      ghost var armed := Pending();
      PendingShown(made, slots);
      first, chain := CollectDue(now);
      due := NumbersOf(chain);
      NumbersDue(armed, made, slots, chain, due, now);
      NumbersDisarmed(armed, Pending(), made, slots, chain, due, now);
      ShownPending(made, Disarmed(slots, due));
    }

    /** And sets the timerfd for those that are left. */
    method TakeDue(now: Time, made: seq<Timer>, ghost slots: seq<Slot>)
      returns (first: Timer?, ghost chain: seq<Timer>, ghost due: seq<nat>)
      requires Represents(made, slots)
      modifies this`active, this`order, this`keys, this`timerfd, data
      modifies timers`heapIdx, timers`deadline, timers`nextDue
      ensures Represents(made, Disarmed(slots, due)) && IsDue(slots, due, now)
      ensures Chain(first, chain, null) && Lists(chain, made, due)
    {
      first, chain, due := Collect(now, made, slots);
      SetTimerfd();
    }

    /** Dispatches the timers that are due: they come out of the heap, the timerfd is set for
        the others, and the callbacks run in deadline order. */
    method Dispatch(now: Time, script: seq<seq<TimerOp>>, made: seq<Timer>, ghost slots: seq<Slot>)
      returns (fired: seq<Timer>, made': seq<Timer>, ghost due: seq<nat>)
      requires Represents(made, slots)
      modifies this, data, timers
      ensures IsDue(slots, due, now)
      ensures Represents(made', AfterCalls(Disarmed(slots, due), due, script, 0)) && made <= made'
      ensures Lists(fired, made', Called(Disarmed(slots, due), due, script, 0))
      ensures (data == old(data) || fresh(data)) && fresh(timers - old(timers))
    {
      var first;
      ghost var chain;
      first, chain, due := TakeDue(now, made, slots);
      fired, made' := RunCallbacks(first, script, made, chain, due, Disarmed(slots, due));
    }

    /** One step of a run. */
    method Take(op: LoopOp, made: seq<Timer>, ghost slots: seq<Slot>)
      returns (fired: seq<Timer>, made': seq<Timer>, ghost due: seq<nat>)
      requires Represents(made, slots)
      modifies this, data, timers
      ensures Represents(made', Step(slots, op, due)) && made <= made' && Dispatched(slots, op, due, made', fired)
      ensures (data == old(data) || fresh(data)) && fresh(timers - old(timers))
    {
      fired, due := [], [];
      match op {
        case Do(op) => made' := Perform(op, made, slots);
        case DispatchAt(now, script) => fired, made', due := Dispatch(now, script, made, slots);
      }
    }

    /** Arms the timerfd for the earliest deadline, or clears it. */
    method SetTimerfd()
      requires HeapOk()
      modifies this`timerfd
      ensures HeapOk() && FdOk()
    {
      RootFirst();
      ArmedIsOrder();
      if active > 0 {
        timerfd := Some(data[0].deadline);
      } else {
        timerfd := None;
      }
    }
  }

  ghost predicate NoneDue(still: map<Timer, Time>, now: Time) {
    forall t :: t in still ==> TimeLt(now, still[t])
  }

  /** The list that starts at first and is linked by nextDue is due, followed by end. */
  ghost predicate Chain(first: Timer?, due: seq<Timer>, end: Timer?)
    reads due`nextDue
  {
    if due == [] then first == end
    else
      && first == due[0] && due[|due| - 1].nextDue == end
      && forall i :: 0 <= i < |due| - 1 ==> due[i].nextDue == due[i + 1]
  }

  /** The heap pops timers in deadline order: `due` came out of those `armed` at first, they
      were due, and what is `still` armed is as it was and not earlier. */
  ghost predicate Popped(armed: map<Timer, Time>, still: map<Timer, Time>, due: seq<Timer>, now: Time) {
    && PairwiseDistinct(due) && still.Keys <= armed.Keys
    && (forall t :: t in armed ==> (t in due <==> t !in still))
    && (forall i :: 0 <= i < |due| ==> due[i] in armed && TimeLe(armed[due[i]], now))
    && (forall t :: t in still ==> still[t] == armed[t])
    && (forall i, j :: 0 <= i < j < |due| ==> TimeLe(armed[due[i]], armed[due[j]]))
    && (forall i, t :: 0 <= i < |due| && t in still ==> TimeLe(armed[due[i]], armed[t]))
  }

  ghost predicate IsEarliest(root: Timer, still: map<Timer, Time>) {
    root in still && forall t :: t in still ==> TimeLe(still[root], still[t])
  }

  /** Exactly the due timers, each once, in deadline order. */
  ghost predicate DueInOrder(armed: map<Timer, Time>, due: seq<Timer>, now: Time) {
    && PairwiseDistinct(due)
    && (forall t :: t in armed ==> (t in due <==> TimeLe(armed[t], now)))
    && (forall i :: 0 <= i < |due| ==> due[i] in armed)
    && (forall i, j :: 0 <= i < j < |due| ==> TimeLe(armed[due[i]], armed[due[j]]))
  }

  lemma PoppedNext(armed: map<Timer, Time>, still: map<Timer, Time>, still': map<Timer, Time>, due: seq<Timer>,
                   root: Timer, now: Time)
    requires Popped(armed, still, due, now) && IsEarliest(root, still) && TimeLe(still[root], now)
    requires still' == still - {root}
    ensures root !in due && Popped(armed, still', due + [root], now)
  {
  }

  /** first and tail are the ends of the list due. */
  ghost predicate IsList(first: Timer?, tail: Timer?, due: seq<Timer>)
    reads due`nextDue
  {
    if due == [] then first == null && tail == null
    else tail == due[|due| - 1] && Chain(first, due, tail.nextDue)
  }

  /** Ends the list. */
  method EndList(first: Timer?, tail: Timer?, ghost due: seq<Timer>)
    requires IsList(first, tail, due) && PairwiseDistinct(due)
    modifies due`nextDue
    ensures Chain(first, due, null)
  {
    if tail != null {
      tail.nextDue := null;
    }
  }

  // --------------------------------------------------------- timers as a table

  /** What there is to know of a timer: whether it was removed, and its deadline if it is
      armed. */
  datatype Slot = Slot(live: bool, deadline: Option<Time>)

  /** What a program may do to the timers of its loop.  It names them by their numbers, in the
      order in which they were added. */
  datatype TimerOp = AddOp | UpdateOp(who: nat, ms: int, now: Time) | RemoveOp(who: nat)

  predicate Live(slots: seq<Slot>, i: nat) {
    i < |slots| && slots[i].live
  }

  predicate IsArmed(slots: seq<Slot>, i: nat) {
    i < |slots| && slots[i].deadline.Some?
  }

  /** The meaning of an operation; a timer that was removed is not touched again. */
  function Apply(slots: seq<Slot>, op: TimerOp): (r: seq<Slot>) {
    match op
    case AddOp => slots + [Slot(true, None)]
    case UpdateOp(who, ms, now) =>
      if !Live(slots, who) then slots
      else slots[who := Slot(true, if ms > 0 then Some(DeadlineAfter(now, ms)) else None)]
    case RemoveOp(who) => if !Live(slots, who) then slots else slots[who := Slot(false, None)]
  }

  function ApplyAll(slots: seq<Slot>, ops: seq<TimerOp>): (r: seq<Slot>) {
    if ops == [] then slots else Apply(ApplyAll(slots, ops[..|ops| - 1]), ops[|ops| - 1])
  }

  ghost function SlotOf(t: Timer): Slot
    reads t`removed, t`heapIdx, t`deadline
  {
    Slot(!t.removed, if t.heapIdx >= 0 then Some(t.deadline) else None)
  }

  ghost predicate Numbered(made: seq<Timer>)
    reads made`number
  {
    forall i :: 0 <= i < |made| ==> made[i].number == i
  }

  ghost predicate IsIn(t: Timer, made: seq<Timer>)
    reads t`number
  {
    t.number < |made| && made[t.number] == t
  }

  ghost predicate Shows(made: seq<Timer>, slots: seq<Slot>)
    reads made`removed, made`heapIdx, made`deadline, made`number
  {
    Numbered(made) && |slots| == |made| && forall i :: 0 <= i < |made| ==> slots[i] == SlotOf(made[i])
  }

  /** These are the timers with these numbers. */
  ghost predicate Lists(some: seq<Timer>, made: seq<Timer>, numbers: seq<nat>) {
    |some| == |numbers| && forall i :: 0 <= i < |some| ==> numbers[i] < |made| && some[i] == made[numbers[i]]
  }

  /** The numbers of exactly the due timers, each once, in deadline order. */
  ghost predicate IsDue(slots: seq<Slot>, due: seq<nat>, now: Time) {
    && (forall i, j :: 0 <= i < j < |due| ==> due[i] != due[j])
    && (forall i :: 0 <= i < |due| ==> IsArmed(slots, due[i]))
    && (forall n :: 0 <= n < |slots| ==> (n in due <==> IsArmed(slots, n) && TimeLe(slots[n].deadline.value, now)))
    && (forall i, j :: 0 <= i < j < |due| ==>
          TimeLe(slots[due[i]].deadline.value, slots[due[j]].deadline.value))
  }

  /** The table without the deadlines of these timers. */
  ghost function Disarmed(slots: seq<Slot>, due: seq<nat>): (r: seq<Slot>) {
    seq(|slots|, i requires 0 <= i < |slots| => if i in due then Slot(slots[i].live, None) else slots[i])
  }

  ghost predicate Agree(pending: map<Timer, Time>, made: seq<Timer>, slots: seq<Slot>)
    reads pending.Keys`number
  {
    && |slots| == |made| && (forall t :: t in pending ==> IsIn(t, made))
    && (forall i :: 0 <= i < |made| ==> (made[i] in pending <==> IsArmed(slots, i)))
    && (forall i :: 0 <= i < |made| && made[i] in pending ==> slots[i].deadline.value == pending[made[i]])
  }

  ghost function NumbersOf(some: seq<Timer>): (numbers: seq<nat>)
    reads some`number
    ensures |numbers| == |some| && forall i :: 0 <= i < |some| ==> numbers[i] == some[i].number
  {
    if some == [] then [] else NumbersOf(some[..|some| - 1]) + [some[|some| - 1].number]
  }

  lemma NumbersDue(armed: map<Timer, Time>, made: seq<Timer>, slots: seq<Slot>, chain: seq<Timer>, due: seq<nat>,
                   now: Time)
    requires Numbered(made) && Agree(armed, made, slots) && DueInOrder(armed, chain, now)
    requires Lists(chain, made, due)
    ensures IsDue(slots, due, now)
  {
    forall n | 0 <= n < |slots|
      ensures n in due <==> IsArmed(slots, n) && TimeLe(slots[n].deadline.value, now)
    {
      NumberListed(chain, made, due, n);
    }
  }

  lemma NumberListed(chain: seq<Timer>, made: seq<Timer>, due: seq<nat>, n: nat)
    requires Numbered(made) && Lists(chain, made, due) && n < |made|
    ensures n in due <==> made[n] in chain
  {
    if made[n] in chain {
      var i :| 0 <= i < |chain| && chain[i] == made[n];
      assert due[i] == n;
    }
  }

  lemma NumbersDisarmed(armed: map<Timer, Time>, still: map<Timer, Time>, made: seq<Timer>, slots: seq<Slot>,
                        chain: seq<Timer>, due: seq<nat>, now: Time)
    requires Numbered(made) && Agree(armed, made, slots) && Popped(armed, still, chain, now)
    requires Lists(chain, made, due)
    ensures Agree(still, made, Disarmed(slots, due))
  {
    forall n | 0 <= n < |made| ensures made[n] in still <==> IsArmed(Disarmed(slots, due), n) {
      NumberListed(chain, made, due, n);
    }
  }

  // ------------------------------------------------------- callbacks on the table

  /** What the k-th callback does. */
  function Body(script: seq<seq<TimerOp>>, k: nat): (ops: seq<TimerOp>) {
    if k < |script| then script[k] else []
  }

  /** The due timers whose callbacks run, when k callbacks ran before. */
  ghost function Called(slots: seq<Slot>, due: seq<nat>, script: seq<seq<TimerOp>>, k: nat): (calls: seq<nat>)
    decreases |due|
  {
    if due == [] then []
    else if !Live(slots, due[0]) then Called(slots, due[1..], script, k)
    else [due[0]] + Called(ApplyAll(slots, Body(script, k)), due[1..], script, k + 1)
  }

  /** The table when their callbacks have run. */
  ghost function AfterCalls(slots: seq<Slot>, due: seq<nat>, script: seq<seq<TimerOp>>, k: nat): (r: seq<Slot>)
    decreases |due|
  {
    if due == [] then slots
    else if !Live(slots, due[0]) then AfterCalls(slots, due[1..], script, k)
    else AfterCalls(ApplyAll(slots, Body(script, k)), due[1..], script, k + 1)
  }

  /** In the midst of a dispatch: the table, the due timers that are left, and the callbacks
      that ran. */
  datatype Calls = Calls(slots: seq<Slot>, left: seq<nat>, done: seq<nat>)

  /** The turn of the first timer left. */
  function NextCall(w: Calls, script: seq<seq<TimerOp>>): (w': Calls)
    requires w.left != []
  {
    if !Live(w.slots, w.left[0]) then w.(left := w.left[1..])
    else Calls(ApplyAll(w.slots, Body(script, |w.done|)), w.left[1..], w.done + [w.left[0]])
  }

  /** From w on the callbacks lead where they lead from the beginning. */
  ghost predicate Leads(slots: seq<Slot>, due: seq<nat>, script: seq<seq<TimerOp>>, w: Calls) {
    && w.done + Called(w.slots, w.left, script, |w.done|) == Called(slots, due, script, 0)
    && AfterCalls(w.slots, w.left, script, |w.done|) == AfterCalls(slots, due, script, 0)
  }

  lemma LeadsOn(slots: seq<Slot>, due: seq<nat>, script: seq<seq<TimerOp>>, w: Calls)
    requires w.left != [] && Leads(slots, due, script, w)
    ensures Leads(slots, due, script, NextCall(w, script))
  {
    if Live(w.slots, w.left[0]) {
      var after := Called(ApplyAll(w.slots, Body(script, |w.done|)), w.left[1..], script, |w.done| + 1);
      assert w.done + ([w.left[0]] + after) == (w.done + [w.left[0]]) + after;
    }
  }

  /** The list at cursor are the timers left, and `fired` those whose callbacks ran. */
  ghost predicate Calling(cursor: Timer?, rest: seq<Timer>, fired: seq<Timer>, made: seq<Timer>, w: Calls)
    reads rest`nextDue
  {
    Chain(cursor, rest, null) && Lists(rest, made, w.left) && Lists(fired, made, w.done)
  }

  lemma CallingNext(timer: Timer, script: seq<seq<TimerOp>>, rest: seq<Timer>, fired: seq<Timer>, fired': seq<Timer>,
                    made: seq<Timer>, made': seq<Timer>, w: Calls)
    requires Calling(timer, rest, fired, made, w) && made <= made'
    requires w.left != [] && fired' == if Live(w.slots, w.left[0]) then fired + [timer] else fired
    ensures rest != [] && Calling(timer.nextDue, rest[1..], fired', made', NextCall(w, script))
  {
  }

  lemma FirstLeft(timer: Timer, rest: seq<Timer>, fired: seq<Timer>, made: seq<Timer>, w: Calls)
    requires Calling(timer, rest, fired, made, w)
    ensures rest != [] && w.left != [] && w.left[0] < |made| && timer == made[w.left[0]] && |fired| == |w.done|
  {
  }

  /** What the callbacks that ran before the turn of due timer i did. */
  ghost function OpsBefore(slots: seq<Slot>, due: seq<nat>, script: seq<seq<TimerOp>>, k: nat, i: nat)
    : (ops: seq<TimerOp>)
    requires i < |due|
    decreases i
  {
    if i == 0 then []
    else if !Live(slots, due[0]) then OpsBefore(slots, due[1..], script, k, i - 1)
    else Body(script, k) + OpsBefore(ApplyAll(slots, Body(script, k)), due[1..], script, k + 1, i - 1)
  }

  lemma {:induction false} LiveUnlessRemoved(slots: seq<Slot>, ops: seq<TimerOp>, n: nat)
    requires n < |slots|
    ensures n < |ApplyAll(slots, ops)|
    ensures Live(ApplyAll(slots, ops), n) <==> Live(slots, n) && RemoveOp(n) !in ops
  {
    if ops != [] {
      var before, last := ops[..|ops| - 1], ops[|ops| - 1];
      LiveUnlessRemoved(slots, before, n);
      assert ops == before + [last];
    }
  }

  /** A due timer's callback runs if and only if no callback before it removed the timer. */
  lemma {:induction false} FiredIffNotRemovedBefore(slots: seq<Slot>, due: seq<nat>, script: seq<seq<TimerOp>>,
                                                    k: nat, i: nat)
    requires (forall a, b :: 0 <= a < b < |due| ==> due[a] != due[b]) && i < |due| && due[i] < |slots|
    ensures due[i] in Called(slots, due, script, k)
       <==> Live(slots, due[i]) && RemoveOp(due[i]) !in OpsBefore(slots, due, script, k, i)
    decreases i
  {
    var next := ApplyAll(slots, Body(script, k));
    LiveUnlessRemoved(slots, Body(script, k), due[i]);
    if i == 0 {
      OnlyDueFire(slots, due[1..], script, k, due[0]);
    } else if !Live(slots, due[0]) {
      FiredIffNotRemovedBefore(slots, due[1..], script, k, i - 1);
    } else {
      FiredIffNotRemovedBefore(next, due[1..], script, k + 1, i - 1);
    }
  }

  lemma {:induction false} OnlyDueFire(slots: seq<Slot>, due: seq<nat>, script: seq<seq<TimerOp>>, k: nat, n: nat)
    requires n !in due
    ensures n !in Called(slots, due, script, k)
    decreases |due|
  {
    if due != [] {
      OnlyDueFire(slots, due[1..], script, k, n);
      OnlyDueFire(ApplyAll(slots, Body(script, k)), due[1..], script, k + 1, n);
    }
  }

  /** a is b with some elements left out. */
  ghost predicate Subsequence(a: seq<nat>, b: seq<nat>)
    decreases |b|
  {
    a == [] || (b != [] && (Subsequence(a, b[1..]) || (a[0] == b[0] && Subsequence(a[1..], b[1..]))))
  }

  /** The callbacks run in the order of the due list. */
  lemma {:induction false} FiredInOrder(slots: seq<Slot>, due: seq<nat>, script: seq<seq<TimerOp>>, k: nat)
    ensures Subsequence(Called(slots, due, script, k), due)
    decreases |due|
  {
    if due != [] {
      if !Live(slots, due[0]) {
        FiredInOrder(slots, due[1..], script, k);
      } else {
        var next := ApplyAll(slots, Body(script, k));
        FiredInOrder(next, due[1..], script, k + 1);
        assert Called(slots, due, script, k)[1..] == Called(next, due[1..], script, k + 1);
      }
    }
  }

  // ----------------------------------------------------------------- whole runs

  /** What happens to an event loop: its program does something, or it dispatches. */
  datatype LoopOp = Do(op: TimerOp) | DispatchAt(now: Time, script: seq<seq<TimerOp>>)

  /** The meaning of a step, when `due` are the timers that a dispatch finds due. */
  ghost function Step(slots: seq<Slot>, op: LoopOp, due: seq<nat>): (r: seq<Slot>) {
    match op
    case Do(op) => Apply(slots, op)
    case DispatchAt(_, script) => AfterCalls(Disarmed(slots, due), due, script, 0)
  }

  ghost function After(ops: seq<LoopOp>, dues: seq<seq<nat>>): (slots: seq<Slot>)
    requires |dues| == |ops|
  {
    if ops == [] then []
    else var n := |ops| - 1; Step(After(ops[..n], dues[..n]), ops[n], dues[n])
  }

  /** In a dispatch the due timers are taken, earliest first, and the callbacks of those that
      no callback before has removed are run. */
  ghost predicate Dispatched(slots: seq<Slot>, op: LoopOp, due: seq<nat>, made: seq<Timer>, fired: seq<Timer>) {
    match op
    case Do(_) => fired == []
    case DispatchAt(now, script) =>
      IsDue(slots, due, now) && Lists(fired, made, Called(Disarmed(slots, due), due, script, 0))
  }

  ghost predicate DispatchedAt(ops: seq<LoopOp>, dues: seq<seq<nat>>, made: seq<Timer>, fired: seq<seq<Timer>>, n: nat)
    requires |dues| == |fired| == |ops| && n < |ops|
  {
    Dispatched(After(ops[..n], dues[..n]), ops[n], dues[n], made, fired[n])
  }

  /** The timerfd goes off no later than the earliest deadline in the table, or is off if there
      is none. */
  predicate TimerfdFits(timerfd: Option<Time>, slots: seq<Slot>) {
    if timerfd == None then forall i :: 0 <= i < |slots| ==> !IsArmed(slots, i)
    else
      && (exists i :: 0 <= i < |slots| && IsArmed(slots, i))
      && forall i :: 0 <= i < |slots| && IsArmed(slots, i) ==> TimeLe(timerfd.value, slots[i].deadline.value)
  }

  /** Every run of an event loop, with any additions, updates and removals of timers, by the
      program and by callbacks, and any dispatches: the heap with all its sifting and
      reallocations is no more than a plain table of deadlines, of which each dispatch takes
      exactly the due ones, earliest first; the timerfd is never late; and all reallocations
      together have copied at most six elements per timer added or removed. */
  method Run(ops: seq<LoopOp>)
    returns (heap: TimerHeap, made: seq<Timer>, fired: seq<seq<Timer>>, ghost dues: seq<seq<nat>>)
    ensures |dues| == |fired| == |ops| && heap.Represents(made, After(ops, dues))
    ensures AllDispatched(ops, dues, made, fired)
    ensures TimerfdFits(heap.timerfd, After(ops, dues))
    ensures heap.ops + heap.count == 2 * |made| && heap.moved <= 6 * heap.ops
  {
    heap := new TimerHeap();
    made, fired, dues := [], [], [];
    for n := 0 to |ops|
      invariant fresh(heap) && fresh(heap.data) && fresh(heap.timers)
      invariant |dues| == |fired| == n && heap.Represents(made, After(ops[..n], dues))
      invariant AllDispatched(ops[..n], dues, made, fired)
    {
      PrefixNext(ops, n);
      ghost var before, dues', fired' := made, dues, fired;
      var calls;
      ghost var due;
      calls, made, due := heap.Take(ops[n], made, After(ops[..n], dues));
      fired, dues := fired + [calls], dues + [due];
      DispatchedNext(ops[..n], ops[..n + 1], dues', dues, before, made, fired', fired);
    }
    assert ops[..|ops|] == ops;
    TimerfdShown(heap, made, After(ops, dues));
  }

  ghost predicate AllDispatched(ops: seq<LoopOp>, dues: seq<seq<nat>>, made: seq<Timer>, fired: seq<seq<Timer>>)
    requires |dues| == |fired| == |ops|
  {
    forall n :: 0 <= n < |ops| ==> DispatchedAt(ops, dues, made, fired, n)
  }

  lemma PrefixNext(ops: seq<LoopOp>, n: nat)
    requires n < |ops|
    ensures ops[..n] <= ops[..n + 1] && ops[..n + 1][n] == ops[n]
  {
  }

  lemma DispatchedNext(ops: seq<LoopOp>, ops': seq<LoopOp>, dues: seq<seq<nat>>, dues': seq<seq<nat>>, made: seq<Timer>,
                       made': seq<Timer>, fired: seq<seq<Timer>>, fired': seq<seq<Timer>>)
    requires |dues| == |fired| == |ops| && AllDispatched(ops, dues, made, fired) && made <= made'
    requires |dues'| == |fired'| == |ops'| == |ops| + 1 && ops <= ops' && dues <= dues' && fired <= fired'
    requires Dispatched(After(ops, dues), ops'[|ops|], dues'[|ops|], made', fired'[|ops|])
    ensures AllDispatched(ops', dues', made', fired')
    ensures After(ops', dues') == Step(After(ops, dues), ops'[|ops|], dues'[|ops|])
  {
    var n := |ops|;
    assert ops'[..n] == ops && dues'[..n] == dues;
    forall j | 0 <= j < n + 1 ensures DispatchedAt(ops', dues', made', fired', j) {
      if j < n {
        assert DispatchedAt(ops, dues, made, fired, j);
        assert ops'[..j] == ops[..j] && dues'[..j] == dues[..j];
      }
    }
  }

  lemma TimerfdShown(heap: TimerHeap, made: seq<Timer>, slots: seq<Slot>)
    requires heap.Represents(made, slots)
    ensures TimerfdFits(heap.timerfd, slots)
  {
    heap.PendingShown(made, slots);
    heap.ArmedIsOrder();
    assert Agree(heap.Pending(), made, slots);
    if heap.active > 0 {
      assert heap.order[0] in heap.Pending();
    }
  }

  /** A power of two from eight on. */
  predicate Doubled(space: nat) {
    space == 8 || (space > 8 && space % 2 == 0 && Doubled(space / 2))
  }

  /** What adds and removes have paid in beyond the reallocations: the distance from half full. */
  function Slack(count: nat, space: nat): nat {
    if 2 * count >= space then 2 * count - space else space - 2 * count
  }

  lemma GrowPays(count: nat, space: nat)
    requires count <= space && (space == 0 || Doubled(space))
    ensures count < space ==> Slack(count + 1, space) <= Slack(count, space) + 6
    ensures count == space > 0 ==>
              space >= 8 && Doubled(2 * space) && space + Slack(count + 1, 2 * space) <= Slack(count, space) + 6
    ensures count == space == 0 ==> Slack(count + 1, 8) <= Slack(count, space) + 6
  {
    DoubledSize(space);
  }

  lemma ShrinkPays(count: nat, space: nat)
    requires count + 1 <= space && (space == 0 || Doubled(space))
    ensures Slack(count, space) <= Slack(count + 1, space) + 6
    ensures space >= 16 && space >= 4 * count ==>
              Doubled(space / 2) && space / 2 + Slack(count, space / 2) <= Slack(count + 1, space) + 6
  {
    DoubledSize(space);
  }

  lemma {:induction false} DoubledSize(space: nat)
    requires space == 0 || Doubled(space)
    ensures space != 0 ==> space >= 8 && space % 2 == 0 && Doubled(2 * space)
  {
  }

  lemma EarlierFits(k: seq<Time>, h: nat, key: Time)
    requires Ordered(k) && h < |k| && TimeLt(key, k[h])
    ensures ChildrenFit(k[h := key], h)
  {
  }

  lemma LaterFits(k: seq<Time>, h: nat, key: Time)
    requires Ordered(k) && h < |k| && TimeLe(k[h], key)
    ensures ParentFits(k[h := key], h)
  {
  }

  const NSEC: int := 1_000_000_000

  /** The deadline that update computes. */
  function DeadlineAfter(now: Time, ms: int): Time
    requires ms > 0
  {
    var nsec := now.nsec + ms % 1000 * 1_000_000;
    var sec := now.sec + ms / 1000;
    if nsec >= NSEC then Time(sec + 1, nsec - NSEC) else Time(sec, nsec)
  }

  /** On a normalized clock the deadline is exactly ms milliseconds later, normalized. */
  lemma DeadlineIsExact(now: Time, ms: int)
    requires ms > 0 && 0 <= now.nsec < NSEC
    ensures var d := DeadlineAfter(now, ms);
            && 0 <= d.nsec < NSEC && TimeLt(now, d)
            && d.sec * NSEC + d.nsec == now.sec * NSEC + now.nsec + ms * 1_000_000
  {
    assert ms == ms / 1000 * 1000 + ms % 1000;
  }

  lemma OrderedAppend(k: seq<Time>, key: Time)
    requires Ordered(k)
    ensures OrderedBut(k + [key], |k|) && ChildrenFit(k + [key], |k|)
  {
  }

  /** s without its element at h, whose place the last one takes. */
  ghost function Without(s: seq<Timer>, h: nat): (t: seq<Timer>)
    requires h < |s|
    ensures |t| == |s| - 1
  {
    var n := |s| - 1;
    if h == n then s[..n] else s[..n][h := s[n]]
  }

  lemma WithoutMembers(s: seq<Timer>, h: nat)
    requires PairwiseDistinct(s) && h < |s|
    ensures PairwiseDistinct(Without(s, h)) && forall x :: x in Without(s, h) <==> x in s && x != s[h]
  {
    var n, t := |s| - 1, Without(s, h);
    forall x ensures x in t <==> x in s && x != s[h] {
      if x in s && x != s[h] {
        var i :| 0 <= i < |s| && s[i] == x;
        assert t[if i == n then h else i] == x;
      }
    }
  }
}
