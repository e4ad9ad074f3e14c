/** Intrusive circular lists, and signal emission that survives callbacks which add and
    remove listeners and even emit the same signal again.  The lists are real linked
    nodes.  What an emission does is specified by Emission, which works on the plain
    sequence of listeners and knows nothing of cursors and end markers. */
module Signals {
  /** A list link: of a listener, of a list head or of a marker of a running emission. */
  class Link {
    var prev: Link?
    var next: Link?
    const noop: bool   // the notify pointer is handle_noop: a marker

    constructor (noop: bool)
      ensures prev == null && next == null && this.noop == noop
    {
      prev, next := null, null;
      this.noop := noop;
    }
  }

  // ------------------------------------------------------------- linked rings

  ghost predicate NoRepeats(r: seq<Link>) {
    forall i, j :: 0 <= i < j < |r| ==> r[i] != r[j]
  }

  function After(n: nat, i: nat): nat
    requires i < n
  {
    if i + 1 == n then 0 else i + 1
  }

  ghost function At(r: seq<Link>, i: nat): Link
    requires i < |r|
  {
    r[i]
  }

  /** The nodes r, in order, form a ring. */
  ghost predicate Ring(r: seq<Link>)
    reads r
  {
    && r != [] && NoRepeats(r)
    && (forall i :: 0 <= i < |r| ==> r[i].next == r[After(|r|, i)])
    && (forall i :: 0 <= i < |r| ==> r[After(|r|, i)].prev == r[i])
  }

  ghost function Inserted(r: seq<Link>, k: nat, elm: Link): (t: seq<Link>)
    requires k < |r|
  {
    r[..k + 1] + [elm] + r[k + 1..]
  }

  ghost function Cut(r: seq<Link>, k: nat): (t: seq<Link>)
    requires k < |r|
  {
    r[..k] + r[k + 1..]
  }

  lemma InsertedNoRepeats(r: seq<Link>, k: nat, elm: Link)
    requires NoRepeats(r) && k < |r| && elm !in r
    ensures NoRepeats(Inserted(r, k, elm))
  {
  }

  /** wl_list_insert: elm follows list. */
  method Insert(list: Link, elm: Link, ghost r: seq<Link>, ghost k: nat)
    requires Ring(r) && k < |r| && list == r[k] && elm !in r
    modifies list`next, elm, At(r, After(|r|, k))`prev
    ensures Ring(Inserted(r, k, elm))
  {
    assert list.next == r[After(|r|, k)];
    elm.prev := list;
    elm.next := list.next;
    list.next := elm;
    elm.next.prev := elm;
    ghost var t := Inserted(r, k, elm);
    InsertedNoRepeats(r, k, elm);
    forall i | 0 <= i < |t|
      ensures t[i].next == t[After(|t|, i)] && t[After(|t|, i)].prev == t[i]
    {
      if i < k {
        assert t[i] == r[i] && t[i + 1] == r[After(|r|, i)];
      } else if i > k + 1 {
        assert t[i] == r[i - 1] && t[After(|t|, i)] == r[After(|r|, i - 1)];
      }
    }
  }

  /** wl_list_remove: the node leaves the ring, and its links are cleared. */
  method Remove(elm: Link, ghost r: seq<Link>, ghost k: nat)
    requires Ring(r) && 0 < k < |r| && elm == r[k]
    modifies elm, At(r, k - 1)`next, At(r, After(|r|, k))`prev
    ensures Ring(Cut(r, k)) && elm.next == null && elm.prev == null
  {
    assert r[After(|r|, k - 1)] == elm;
    assert elm.prev == r[k - 1] && elm.next == r[After(|r|, k)];
    elm.prev.next := elm.next;
    elm.next.prev := elm.prev;
    elm.next := null;
    elm.prev := null;
    ghost var t := Cut(r, k);
    forall i | 0 <= i < |t|
      ensures t[i].next == t[After(|t|, i)] && t[After(|t|, i)].prev == t[i]
    {
      if i + 1 < k {
        assert t[i] == r[i] && t[i + 1] == r[After(|r|, i)];
      } else if i >= k {
        assert t[i] == r[i + 1] && t[After(|t|, i)] == r[After(|r|, i + 1)];
      }
    }
  }

  // ------------------------------------------------ what an emission means

  /** A change to the list of listeners. */
  datatype Change = Joined(listener: Link) | Departed(listener: Link)

  /** What a callback does: it adds and removes listeners, and it may emit the same
      signal again, with reactions of its own to that inner emission. */
  datatype Script =
    | Done
    | Add(listener: Link, rest: Script)
    | Drop(listener: Link, rest: Script)
    | Emit(reactions: Reactions, rest: Script)

  /** What the callbacks do, in the order in which they are called. */
  datatype Reactions = Quiet | React(first: Script, rest: Reactions)

  function Without(s: seq<Link>, l: Link): (t: seq<Link>) {
    if s == [] then [] else if s[0] == l then Without(s[1..], l) else [s[0]] + Without(s[1..], l)
  }

  function Apply(s: seq<Link>, log: seq<Change>): (t: seq<Link>)
    decreases |log|
  {
    if log == [] then s
    else if log[0].Joined? then Apply(s + [log[0].listener], log[1..])
    else Apply(Without(s, log[0].listener), log[1..])
  }

  /** The listeners of s that the changes leave in place; newcomers are ignored. */
  function Prune(s: seq<Link>, log: seq<Change>): (t: seq<Link>)
    decreases |log|
  {
    if log == [] then s
    else if log[0].Joined? then Prune(s, log[1..])
    else Prune(Without(s, log[0].listener), log[1..])
  }

  /** The changes a callback makes to the list s.  Adding a listener that is in the
      list, or removing one that is not, is not done. */
  function Performed(script: Script, s: seq<Link>): (log: seq<Change>)
    decreases script
  {
    match script
    case Done => []
    case Add(l, rest) =>
      if l in s then Performed(rest, s) else [Joined(l)] + Performed(rest, s + [l])
    case Drop(l, rest) =>
      if l in s then [Departed(l)] + Performed(rest, Without(s, l)) else Performed(rest, s)
    case Emit(reactions, rest) =>
      var log := Flat(Emission(reactions, s, s).turns);
      log + Performed(rest, Apply(s, log))
  }

  /** turns[i] lists the changes made during the call of notified[i]. */
  datatype Outcome = Outcome(notified: seq<Link>, turns: seq<seq<Change>>)

  /** Notify the listeners of queue in turn, forgetting those that are removed before
      their turn comes.  The list is now at present. */
  function Emission(reactions: Reactions, queue: seq<Link>, now: seq<Link>): (o: Outcome)
    ensures |o.turns| == |o.notified|
    decreases reactions, |queue|
  {
    if queue == [] then Outcome([], [])
    else match reactions
      case Quiet =>
        var o := Emission(Quiet, queue[1..], now);
        Outcome([queue[0]] + o.notified, [[]] + o.turns)
      case React(first, rest) =>
        var log := Performed(first, now);
        var o := Emission(rest, Prune(queue[1..], log), Apply(now, log));
        Outcome([queue[0]] + o.notified, [log] + o.turns)
  }

  function Flat(turns: seq<seq<Change>>): (log: seq<Change>) {
    if turns == [] then [] else turns[0] + Flat(turns[1..])
  }

  /** The listeners in s: its nodes that are no markers. */
  function Real(s: seq<Link>): (t: seq<Link>) {
    if s == [] then [] else if s[0].noop then Real(s[1..]) else [s[0]] + Real(s[1..])
  }

  predicate Leaves(l: Link, log: seq<Change>) {
    Departed(l) in log
  }

  predicate TouchesReal(log: seq<Change>) {
    forall i :: 0 <= i < |log| ==> !log[i].listener.noop
  }

  predicate Mentions(script: Script, pool: set<Link>)
    decreases script
  {
    match script
    case Done => true
    case Add(l, rest) => l in pool && !l.noop && Mentions(rest, pool)
    case Drop(l, rest) => l in pool && !l.noop && Mentions(rest, pool)
    case Emit(reactions, rest) => AllMention(reactions, pool) && Mentions(rest, pool)
  }

  predicate AllMention(reactions: Reactions, pool: set<Link>)
    decreases reactions
  {
    match reactions
    case Quiet => true
    case React(first, rest) => Mentions(first, pool) && AllMention(rest, pool)
  }

  lemma {:induction false} MentionMore(reactions: Reactions, pool: set<Link>, more: set<Link>)
    requires AllMention(reactions, pool) && pool <= more
    ensures AllMention(reactions, more)
    decreases reactions
  {
    if reactions.React? {
      ScriptMentionMore(reactions.first, pool, more);
      MentionMore(reactions.rest, pool, more);
    }
  }

  lemma {:induction false} ScriptMentionMore(script: Script, pool: set<Link>, more: set<Link>)
    requires Mentions(script, pool) && pool <= more
    ensures Mentions(script, more)
    decreases script
  {
    match script
    case Done =>
    case Add(_, rest) => ScriptMentionMore(rest, pool, more);
    case Drop(_, rest) => ScriptMentionMore(rest, pool, more);
    case Emit(reactions, rest) =>
      MentionMore(reactions, pool, more);
      ScriptMentionMore(rest, pool, more);
  }

  // ------------------------------------------------------ laws of the meaning

  lemma {:induction false} WithoutParts(a: seq<Link>, b: seq<Link>, l: Link)
    ensures Without(a + b, l) == Without(a, l) + Without(b, l)
  {
    if a == [] {
      assert a + b == b;
    } else {
      WithoutParts(a[1..], b, l);
      assert (a + b)[1..] == a[1..] + b && (a + b)[0] == a[0];
      if a[0] != l {
        assert [a[0]] + (Without(a[1..], l) + Without(b, l)) == Without(a, l) + Without(b, l);
      }
    }
  }

  lemma {:induction false} WithoutAbsent(s: seq<Link>, l: Link)
    requires l !in s
    ensures Without(s, l) == s
  {
    if s != [] {
      WithoutAbsent(s[1..], l);
    }
  }

  lemma {:induction false} WithoutMembers(s: seq<Link>, l: Link, x: Link)
    ensures x in Without(s, l) <==> x in s && x != l
  {
    if s != [] {
      WithoutMembers(s[1..], l, x);
    }
  }

  lemma {:induction false} WithoutNoRepeats(s: seq<Link>, l: Link)
    requires NoRepeats(s)
    ensures NoRepeats(Without(s, l))
  {
    if s != [] {
      WithoutNoRepeats(s[1..], l);
      if s[0] != l {
        WithoutMembers(s[1..], l, s[0]);
      }
    }
  }

  lemma {:induction false} WithoutCuts(s: seq<Link>, k: nat)
    requires NoRepeats(s) && k < |s|
    ensures Without(s, s[k]) == s[..k] + s[k + 1..]
    decreases k
  {
    if k == 0 {
      WithoutAbsent(s[1..], s[0]);
    } else {
      assert s[1..][k - 1] == s[k] && s[0] != s[k];
      WithoutCuts(s[1..], k - 1);
      assert s[1..][..k - 1] == s[1..k] && s[1..][k..] == s[k + 1..];
      assert [s[0]] + s[1..k] == s[..k];
    }
  }

  /** Changes act on the two halves of a list independently: they only take from the
      first, and add at the end of the second. */
  lemma {:induction false} ApplyParts(a: seq<Link>, b: seq<Link>, log: seq<Change>)
    ensures Apply(a + b, log) == Prune(a, log) + Apply(b, log)
    decreases |log|
  {
    if log != [] {
      var l := log[0].listener;
      if log[0].Joined? {
        ApplyParts(a, b + [l], log[1..]);
        assert a + b + [l] == a + (b + [l]);
      } else {
        WithoutParts(a, b, l);
        ApplyParts(Without(a, l), Without(b, l), log[1..]);
      }
    }
  }

  lemma {:induction false} PruneParts(a: seq<Link>, b: seq<Link>, log: seq<Change>)
    ensures Prune(a + b, log) == Prune(a, log) + Prune(b, log)
    decreases |log|
  {
    if log != [] && log[0].Departed? {
      WithoutParts(a, b, log[0].listener);
      PruneParts(Without(a, log[0].listener), Without(b, log[0].listener), log[1..]);
    } else if log != [] {
      PruneParts(a, b, log[1..]);
    }
  }

  lemma {:induction false} ApplyTwice(s: seq<Link>, a: seq<Change>, b: seq<Change>)
    ensures Apply(s, a + b) == Apply(Apply(s, a), b)
    decreases |a|
  {
    if a == [] {
      assert a + b == b;
    } else {
      assert (a + b)[1..] == a[1..] + b;
      ApplyTwice(if a[0].Joined? then s + [a[0].listener] else Without(s, a[0].listener), a[1..], b);
    }
  }

  lemma {:induction false} PruneMembers(s: seq<Link>, log: seq<Change>, x: Link)
    ensures x in Prune(s, log) <==> x in s && !Leaves(x, log)
    decreases |log|
  {
    if log != [] && log[0].Departed? {
      PruneMembers(Without(s, log[0].listener), log[1..], x);
      WithoutMembers(s, log[0].listener, x);
    } else if log != [] {
      PruneMembers(s, log[1..], x);
    }
  }

  lemma {:induction false} PruneMarker(x: Link, log: seq<Change>)
    requires x.noop && TouchesReal(log)
    ensures Prune([x], log) == [x]
  {
    if log != [] {
      assert [x][1..] == [];
      PruneMarker(x, log[1..]);
      assert log[0].Departed? ==> Without([x], log[0].listener) == [x];
    }
  }

  lemma {:induction false} RealParts(a: seq<Link>, b: seq<Link>)
    ensures Real(a + b) == Real(a) + Real(b)
  {
    if a == [] {
      assert a + b == b;
    } else {
      RealParts(a[1..], b);
      assert (a + b)[1..] == a[1..] + b && (a + b)[0] == a[0];
      if !a[0].noop {
        assert [a[0]] + (Real(a[1..]) + Real(b)) == Real(a) + Real(b);
      }
    }
  }

  lemma {:induction false} RealMembers(s: seq<Link>, x: Link)
    ensures x in Real(s) <==> x in s && !x.noop
  {
    if s != [] {
      RealMembers(s[1..], x);
    }
  }

  lemma {:induction false} RealWithout(s: seq<Link>, l: Link)
    ensures Real(Without(s, l)) == Without(Real(s), l)
  {
    if s != [] {
      RealWithout(s[1..], l);
      if !s[0].noop && s[0] != l {
        assert Without(s, l) == [s[0]] + Without(s[1..], l);
        assert Without(s, l)[1..] == Without(s[1..], l) && Real(s)[1..] == Real(s[1..]);
      } else if s[0] != l {
        assert Without(s, l)[1..] == Without(s[1..], l);
      } else if !s[0].noop {
        assert Real(s)[1..] == Real(s[1..]);
      }
    }
  }

  lemma {:induction false} RealApply(s: seq<Link>, log: seq<Change>)
    requires TouchesReal(log)
    ensures Real(Apply(s, log)) == Apply(Real(s), log)
    decreases |log|
  {
    if log != [] {
      var l := log[0].listener;
      if log[0].Joined? {
        RealParts(s, [l]);
        assert [l][1..] == [] && Real([l]) == [l];
        RealApply(s + [l], log[1..]);
      } else {
        RealWithout(s, l);
        RealApply(Without(s, l), log[1..]);
      }
    }
  }

  lemma {:induction false} RealPrune(s: seq<Link>, log: seq<Change>)
    ensures Real(Prune(s, log)) == Prune(Real(s), log)
    decreases |log|
  {
    if log != [] && log[0].Departed? {
      RealWithout(s, log[0].listener);
      RealPrune(Without(s, log[0].listener), log[1..]);
    } else if log != [] {
      RealPrune(s, log[1..]);
    }
  }

  // ------------------------------------------------------ lists on the heap

  /** The ring of head holds the nodes s, and among the nodes of pool exactly those in s
      are linked. */
  ghost predicate Linked(head: Link, s: seq<Link>, pool: set<Link>)
    reads pool
  {
    && head in pool && (forall l :: l in s ==> l in pool)
    && Ring([head] + s)
    && (forall l :: l in pool && l != head ==> (l.next == null <==> l !in s))
  }

  lemma RingLinks(r: seq<Link>, s: seq<Link>)
    requires Ring(r) && r[1..] == s
    ensures NoRepeats(s) && forall l :: l in s ==> l.next != null && l != r[0]
  {
    forall i | 0 <= i < |s| ensures s[i].next != null && s[i] != r[0] {
      assert s[i] == r[i + 1];
    }
    forall i, j | 0 <= i < j < |s| ensures s[i] != s[j] {
      assert s[i] == r[i + 1] && s[j] == r[j + 1];
    }
  }

  /** wl_signal_add: the listener joins at the end of the list. */
  method Append(head: Link, l: Link, ghost s: seq<Link>, ghost pool: set<Link>)
    requires Linked(head, s, pool) && l in pool && l != head && l !in s
    modifies pool
    ensures Linked(head, s + [l], pool)
  {
    ghost var r := [head] + s;
    assert r[After(|r|, |s|)] == head;
    Insert(head.prev, l, r, |s|);
    assert Inserted(r, |s|, l) == [head] + (s + [l]);
    RingLinks([head] + (s + [l]), s + [l]);
  }

  /** wl_list_insert in the middle of the list: l follows pos. */
  method InsertAfter(head: Link, pos: Link, l: Link, ghost a: seq<Link>, ghost b: seq<Link>,
                     ghost pool: set<Link>)
    requires Linked(head, a + b, pool) && l in pool && l != head && l !in a + b
    requires pos == ([head] + a)[|a|]
    modifies pool
    ensures Linked(head, a + [l] + b, pool)
  {
    ghost var r := [head] + (a + b);
    assert r[|a|] == pos;
    Insert(pos, l, r, |a|);
    assert Inserted(r, |a|, l) == [head] + (a + [l] + b);
    RingLinks([head] + (a + [l] + b), a + [l] + b);
  }

  lemma TakenAt(head: Link, s: seq<Link>, l: Link) returns (k: nat)
    requires NoRepeats([head] + s) && l in s
    ensures 0 < k < |[head] + s| && ([head] + s)[k] == l
    ensures Cut([head] + s, k) == [head] + Without(s, l)
    ensures forall x :: x in Without(s, l) <==> x in s && x != l
  {
    var r := [head] + s;
    var j :| 0 <= j < |s| && s[j] == l;
    k := j + 1;
    forall i, j | 0 <= i < j < |s| ensures s[i] != s[j] {
      assert r[i + 1] == s[i] && r[j + 1] == s[j];
    }
    WithoutCuts(s, j);
    assert Cut(r, k) == [head] + (s[..j] + s[j + 1..]);
    forall x ensures x in Without(s, l) <==> x in s && x != l {
      WithoutMembers(s, l, x);
    }
  }

  /** wl_list_remove of a listener. */
  method Take(head: Link, l: Link, ghost s: seq<Link>, ghost pool: set<Link>)
    requires Linked(head, s, pool) && l in s
    modifies pool
    ensures Linked(head, Without(s, l), pool)
  {
    ghost var k := TakenAt(head, s, l);
    RingLinks([head] + s, s);
    Remove(l, [head] + s, k);
    RingLinks([head] + Without(s, l), Without(s, l));
  }

  // --------------------------------------------------- laws of an emission

  lemma {:induction false} FlatAppend(turns: seq<seq<Change>>, log: seq<Change>)
    ensures Flat(turns + [log]) == Flat(turns) + log
  {
    if turns == [] {
      assert (turns + [log])[1..] == [];
    } else {
      FlatAppend(turns[1..], log);
      assert (turns + [log])[1..] == turns[1..] + [log];
    }
  }

  lemma {:induction false} PerformedTouchesReal(script: Script, pool: set<Link>, s: seq<Link>)
    requires Mentions(script, pool)
    ensures TouchesReal(Performed(script, s))
    decreases script
  {
    match script
    case Done =>
    case Add(l, rest) =>
      PerformedTouchesReal(rest, pool, if l in s then s else s + [l]);
    case Drop(l, rest) =>
      PerformedTouchesReal(rest, pool, if l in s then Without(s, l) else s);
    case Emit(reactions, rest) =>
      var log := Flat(Emission(reactions, s, s).turns);
      EmissionTouchesReal(reactions, pool, s, s);
      PerformedTouchesReal(rest, pool, Apply(s, log));
  }

  lemma {:induction false} EmissionTouchesReal(reactions: Reactions, pool: set<Link>, queue: seq<Link>,
                                               now: seq<Link>)
    requires AllMention(reactions, pool)
    ensures TouchesReal(Flat(Emission(reactions, queue, now).turns))
    decreases reactions, |queue|
  {
    if queue != [] {
      match reactions
      case Quiet =>
        EmissionTouchesReal(Quiet, pool, queue[1..], now);
      case React(first, rest) =>
        var log := Performed(first, now);
        PerformedTouchesReal(first, pool, now);
        EmissionTouchesReal(rest, pool, Prune(queue[1..], log), Apply(now, log));
    }
  }

  // ------------------------------------------------- the emission on the heap

  /** The list while an emission runs: a has been passed by the cursor, b is still to
      come, c joined during the emission. */
  ghost function Row(a: seq<Link>, cursor: Link, b: seq<Link>, end: Link, c: seq<Link>): seq<Link> {
    a + [cursor] + b + [end] + c
  }

  /** What has happened so far together with what is still to come is the whole. */
  ghost predicate Halfway(whole: Outcome, notified: seq<Link>, turns: seq<seq<Change>>,
                          todo: Reactions, b: seq<Link>, now: seq<Link>)
  {
    var o := Emission(todo, Real(b), Real(now));
    whole == Outcome(notified + o.notified, turns + o.turns)
  }

  function FirstOf(todo: Reactions): Script {
    if todo.React? then todo.first else Done
  }

  function RestOf(todo: Reactions): Reactions {
    if todo.React? then todo.rest else Quiet
  }

  /** The next node is a listener, whose callback does log. */
  lemma CallNext(whole: Outcome, notified: seq<Link>, turns: seq<seq<Change>>,
                 todo: Reactions, b: seq<Link>, now: seq<Link>, log: seq<Change>)
    requires Halfway(whole, notified, turns, todo, b, now)
    requires b != [] && !b[0].noop && TouchesReal(log)
    requires log == Performed(FirstOf(todo), Real(now))
    ensures Halfway(whole, notified + [b[0]], turns + [log], RestOf(todo), Prune(b[1..], log), Apply(now, log))
  {
    RealPrune(b[1..], log);
    RealApply(now, log);
    var o := Emission(RestOf(todo), Real(Prune(b[1..], log)), Real(Apply(now, log)));
    EmissionStep(todo, b, Real(now), log);
    Regroup(notified, b[0], turns, log, o);
  }

  lemma Regroup(notified: seq<Link>, x: Link, turns: seq<seq<Change>>, log: seq<Change>, o: Outcome)
    ensures notified + ([x] + o.notified) == notified + [x] + o.notified
    ensures turns + ([log] + o.turns) == turns + [log] + o.turns
  {
  }

  lemma EmissionStep(todo: Reactions, b: seq<Link>, now: seq<Link>, log: seq<Change>)
    requires b != [] && !b[0].noop && log == Performed(FirstOf(todo), now)
    ensures var o := Emission(RestOf(todo), Prune(Real(b[1..]), log), Apply(now, log));
            Emission(todo, Real(b), now) == Outcome([b[0]] + o.notified, [log] + o.turns)
  {
    assert Real(b)[1..] == Real(b[1..]) && Real(b)[0] == b[0];
  }

  lemma ListAfterCall(s: seq<Link>, turns: seq<seq<Change>>, a: seq<Link>, b: seq<Link>, c: seq<Link>,
                      log: seq<Change>)
    requires b != [] && a + b + c == Apply(s, Flat(turns))
    ensures Prune(a + [b[0]], log) + Prune(b[1..], log) + Apply(c, log) == Apply(a + b + c, log)
    ensures Apply(a + b + c, log) == Apply(s, Flat(turns + [log]))
  {
    assert a + b + c == (a + [b[0]]) + (b[1..] + c);
    ApplyParts(a + [b[0]], b[1..] + c, log);
    ApplyParts(b[1..], c, log);
    ApplyTwice(s, Flat(turns), log);
    FlatAppend(turns, log);
  }

  /** What a callback does to the list while the markers stand in it. */
  lemma AroundMarkers(a: seq<Link>, cursor: Link, b: seq<Link>, end: Link, c: seq<Link>, log: seq<Change>)
    requires cursor.noop && end.noop && TouchesReal(log)
    ensures Apply(Row(a, cursor, b, end, c), log)
         == Row(Prune(a, log), cursor, Prune(b, log), end, Apply(c, log))
  {
    ApplyParts(a + [cursor] + b + [end], c, log);
    PruneTo(a + [cursor] + b, end, log);
    PruneParts(a + [cursor], b, log);
    PruneTo(a, cursor, log);
  }

  lemma PruneTo(a: seq<Link>, x: Link, log: seq<Change>)
    requires x.noop && TouchesReal(log)
    ensures Prune(a + [x], log) == Prune(a, log) + [x]
  {
    PruneParts(a, [x], log);
    PruneMarker(x, log);
  }

  lemma RealRow(a: seq<Link>, cursor: Link, b: seq<Link>, end: Link, c: seq<Link>)
    requires cursor.noop && end.noop
    ensures Real(Row(a, cursor, b, end, c)) == Real(a + b + c)
  {
    RealParts(a + [cursor] + b + [end], c);
    RealTo(a + [cursor] + b, end);
    RealParts(a + [cursor], b);
    RealTo(a, cursor);
    RealParts(a + b, c);
    RealParts(a, b);
  }

  lemma RealTo(a: seq<Link>, x: Link)
    requires x.noop
    ensures Real(a + [x]) == Real(a)
  {
    RealParts(a, [x]);
    assert [x][1..] == [];
  }

  /** A callback runs. */
  method RunScript(head: Link, script: Script, ghost s: seq<Link>, ghost pool: set<Link>)
    returns (ghost log: seq<Change>)
    requires Linked(head, s, pool) && Mentions(script, pool - {head})
    modifies pool
    ensures log == Performed(script, Real(s)) && TouchesReal(log)
    ensures Linked(head, Apply(s, log), pool)
    decreases script, 0
  {
    PerformedTouchesReal(script, pool - {head}, Real(s));
    match script
    case Done =>
      log := [];
    case Add(l, rest) =>
      RealMembers(s, l);
      if l.next == null {
        Append(head, l, s, pool);
        RealApply(s, [Joined(l)]);
        log := RunScript(head, rest, s + [l], pool);
        log := [Joined(l)] + log;
      } else {
        log := RunScript(head, rest, s, pool);
      }
    case Drop(l, rest) =>
      RealMembers(s, l);
      if l.next != null {
        Take(head, l, s, pool);
        RealApply(s, [Departed(l)]);
        log := RunScript(head, rest, Without(s, l), pool);
        log := [Departed(l)] + log;
      } else {
        log := RunScript(head, rest, s, pool);
      }
    case Emit(reactions, rest) =>
      var notified;
      ghost var turns;
      notified, turns := EmitMutable(head, reactions, s, pool);
      EmissionTouchesReal(reactions, pool - {head}, Real(s), Real(s));
      RealApply(s, Flat(turns));
      log := RunScript(head, rest, Apply(s, Flat(turns)), pool);
      ApplyTwice(s, Flat(turns), log);
      log := Flat(turns) + log;
  }

  lemma WithoutMiddle(a: seq<Link>, x: Link, c: seq<Link>)
    requires NoRepeats(a + [x] + c)
    ensures Without(a + [x] + c, x) == a + c
  {
    var s := a + [x] + c;
    assert s[|a|] == x;
    WithoutCuts(s, |a|);
    assert s[..|a|] == a && s[|a| + 1..] == c;
  }

  lemma {:induction false} WithoutShrinks(s: seq<Link>, l: Link)
    ensures |Without(s, l)| <= |s|
  {
    if s != [] {
      WithoutShrinks(s[1..], l);
    }
  }

  lemma {:induction false} PruneShrinks(s: seq<Link>, log: seq<Change>)
    ensures |Prune(s, log)| <= |s|
    decreases |log|
  {
    if log != [] && log[0].Departed? {
      WithoutShrinks(s, log[0].listener);
      PruneShrinks(Without(s, log[0].listener), log[1..]);
    } else if log != [] {
      PruneShrinks(s, log[1..]);
    }
  }

  /** The node after the cursor. */
  lemma NextNode(head: Link, a: seq<Link>, cursor: Link, b: seq<Link>, end: Link, c: seq<Link>, pool: set<Link>)
    requires Linked(head, Row(a, cursor, b, end, c), pool)
    ensures NoRepeats(Row(a, cursor, b, end, c)) && cursor.next == (b + [end])[0]
    ensures cursor != head && cursor in pool && cursor !in a + (b + [end] + c)
    ensures cursor.next == end <==> b == []
  {
    var s := Row(a, cursor, b, end, c);
    var r := [head] + s;
    RingLinks(r, s);
    assert r[|a| + 1] == s[|a|] == cursor && r[After(|r|, |a| + 1)] == s[|a| + 1] == (b + [end])[0];
    assert s == a + [cursor] + (b + [end] + c);
    WithoutMiddle(a, cursor, b + [end] + c);
    WithoutMembers(s, cursor, cursor);
    assert s[|a| + 1 + |b|] == end;
  }

  /** The cursor before and after the first node that it has not passed. */
  lemma MovedParts(a: seq<Link>, cursor: Link, b: seq<Link>, end: Link, c: seq<Link>)
    requires b != []
    ensures var rest := b + [end] + c;
            && rest != [] && rest[0] == b[0] && Row(a, cursor, b, end, c) == a + [cursor] + rest
            && a + rest == (a + [b[0]]) + rest[1..]
            && (a + [b[0]]) + [cursor] + rest[1..] == Row(a + [b[0]], cursor, b[1..], end, c)
  {
  }

  /** The cursor moves past the next node. */
  method MoveCursor(head: Link, cursor: Link, ghost a: seq<Link>, ghost b: seq<Link>, ghost end: Link,
                    ghost c: seq<Link>, ghost pool: set<Link>) returns (pos: Link)
    requires Linked(head, Row(a, cursor, b, end, c), pool) && b != []
    modifies pool
    ensures pos == b[0] && Linked(head, Row(a + [pos], cursor, b[1..], end, c), pool)
  {
    NextNode(head, a, cursor, b, end, c, pool);
    pos := cursor.next;
    ghost var rest := b + [end] + c;
    MovedParts(a, cursor, b, end, c);
    WithoutMiddle(a, cursor, rest);
    Take(head, cursor, a + [cursor] + rest, pool);
    InsertAfter(head, pos, cursor, a + [pos], rest[1..], pool);
  }

  /** The two markers enter the list. */
  method PlaceMarkers(head: Link, cursor: Link, end: Link, ghost s: seq<Link>, ghost pool: set<Link>)
    requires Linked(head, s, pool) && {cursor, end} <= pool - {head} && cursor != end
    requires cursor !in s && end !in s
    modifies pool
    ensures Linked(head, Row([], cursor, s, end, []), pool)
  {
    assert [] + s == s;
    InsertAfter(head, head, cursor, [], s, pool);
    assert [] + [cursor] + s == [cursor] + s;
    Append(head, end, [cursor] + s, pool);
    assert [cursor] + s + [end] == Row([], cursor, s, end, []);
  }

  /** The markers leave it. */
  method TakeMarkers(head: Link, cursor: Link, end: Link, ghost a: seq<Link>, ghost c: seq<Link>,
                     ghost pool: set<Link>)
    requires Linked(head, Row(a, cursor, [], end, c), pool)
    modifies pool
    ensures Linked(head, a + c, pool) && cursor !in a + c && end !in a + c
  {
    NextNode(head, a, cursor, [], end, c, pool);
    assert Row(a, cursor, [], end, c) == a + [cursor] + ([end] + c);
    WithoutMiddle(a, cursor, [end] + c);
    Take(head, cursor, a + [cursor] + ([end] + c), pool);
    assert a + ([end] + c) == a + [end] + c;
    RingLinks([head] + (a + [end] + c), a + [end] + c);
    WithoutMiddle(a, end, c);
    WithoutMembers(a + [end] + c, end, end);
    Take(head, end, a + [end] + c, pool);
  }

  /** The list was s and the emission means whole.  The changes in turns have been made,
      the cursor has passed a, b is still to come and c has joined. */
  datatype Stage = Stage(s: seq<Link>, whole: Outcome, turns: seq<seq<Change>>,
                         a: seq<Link>, b: seq<Link>, c: seq<Link>)
  {
    ghost predicate Consistent(notified: seq<Link>, todo: Reactions) {
      && a + b + c == Apply(s, Flat(turns))
      && Halfway(whole, notified, turns, todo, b, a + b + c)
    }

    function Passed(): Stage
      requires b != []
    {
      this.(a := a + [b[0]], b := b[1..])
    }

    function Called(log: seq<Change>): Stage
      requires b != []
    {
      Stage(s, whole, turns + [log], Prune(a + [b[0]], log), Prune(b[1..], log), Apply(c, log))
    }
  }

  /** The list holds the two markers where the stage says. */
  ghost predicate Running(head: Link, cursor: Link, end: Link, pool: set<Link>, g: Stage)
    reads pool
  {
    Linked(head, Row(g.a, cursor, g.b, end, g.c), pool) && cursor.noop && end.noop
  }

  /** The cursor passes a marker of an outer emission. */
  lemma PassMarker(g: Stage, notified: seq<Link>, todo: Reactions)
    requires g.Consistent(notified, todo) && g.b != [] && g.b[0].noop
    ensures g.Passed().Consistent(notified, todo)
  {
    assert g.a + g.b == g.a + [g.b[0]] + g.b[1..];
  }

  /** The cursor has just passed a listener, whose callback runs. */
  method CallListener(head: Link, todo: Reactions, ghost cursor: Link, ghost end: Link, ghost pool: set<Link>,
                      ghost g: Stage, ghost notified: seq<Link>)
    returns (ghost log: seq<Change>)
    requires g.Consistent(notified, todo) && g.b != [] && !g.b[0].noop
    requires Running(head, cursor, end, pool, g.Passed()) && AllMention(todo, pool - {head})
    modifies pool
    ensures Running(head, cursor, end, pool, g.Called(log))
    ensures g.Called(log).Consistent(notified + [g.b[0]], RestOf(todo))
    decreases todo, 1
  {
    ghost var p := g.Passed();
    RealRow(p.a, cursor, p.b, end, p.c);
    assert p.a + p.b + p.c == g.a + g.b + g.c;
    log := [];
    if todo.React? {
      log := RunScript(head, todo.first, Row(p.a, cursor, p.b, end, p.c), pool);
    }
    AroundMarkers(p.a, cursor, p.b, end, p.c, log);
    ListAfterCall(g.s, g.turns, g.a, g.b, g.c, log);
    CallNext(g.whole, notified, g.turns, todo, g.b, g.a + g.b + g.c, log);
  }

  /** One round of the loop. */
  method Turn(head: Link, cursor: Link, todo: Reactions, notified: seq<Link>, ghost end: Link,
              ghost pool: set<Link>, ghost g: Stage)
    returns (notified': seq<Link>, todo': Reactions, ghost g': Stage)
    requires g.Consistent(notified, todo) && g.b != []
    requires Running(head, cursor, end, pool, g) && AllMention(todo, pool - {head})
    modifies pool
    ensures g'.Consistent(notified', todo') && AllMention(todo', pool - {head})
    ensures Running(head, cursor, end, pool, g')
    ensures |g'.b| < |g.b| && g'.s == g.s && g'.whole == g.whole
    ensures todo' == todo || todo' < todo
    decreases todo, 2
  {
    notified', todo', g' := notified, todo, g.Passed();
    var pos := MoveCursor(head, cursor, g.a, g.b, end, g.c, pool);
    if pos.noop {
      PassMarker(g, notified, todo);
    } else {
      ghost var log := CallListener(head, todo, cursor, end, pool, g, notified);
      PruneShrinks(g.b[1..], log);
      notified', todo', g' := notified + [pos], RestOf(todo), g.Called(log);
    }
  }

  lemma Start(s: seq<Link>, reactions: Reactions)
    ensures Stage(s, Emission(reactions, Real(s), Real(s)), [], [], s, []).Consistent([], reactions)
  {
    assert [] + s + [] == s;
    var o := Emission(reactions, Real(s), Real(s));
    assert [] + o.notified == o.notified && [] + o.turns == o.turns;
  }

  lemma Finish(g: Stage, notified: seq<Link>, todo: Reactions)
    requires g.Consistent(notified, todo) && g.b == []
    ensures Outcome(notified, g.turns) == g.whole && g.a + g.c == Apply(g.s, Flat(g.turns))
  {
    assert g.a + g.b + g.c == g.a + g.c;
  }

  /** wl_signal_emit_mutable. */
  method EmitMutable(head: Link, reactions: Reactions, ghost s: seq<Link>, ghost pool: set<Link>)
    returns (notified: seq<Link>, ghost turns: seq<seq<Change>>)
    requires Linked(head, s, pool) && AllMention(reactions, pool - {head})
    modifies pool
    ensures Outcome(notified, turns) == Emission(reactions, Real(s), Real(s))
    ensures Linked(head, Apply(s, Flat(turns)), pool)
    decreases reactions, 3
  {
    var cursor := new Link(true);
    var end := new Link(true);
    ghost var pool' := pool + {cursor, end};
    PlaceMarkers(head, cursor, end, s, pool');
    MentionMore(reactions, pool - {head}, pool' - {head});
    Start(s, reactions);
    var todo := reactions;
    notified := [];
    ghost var g := Stage(s, Emission(reactions, Real(s), Real(s)), [], [], s, []);
    NextNode(head, g.a, cursor, g.b, end, g.c, pool');
    while cursor.next != end
      invariant Running(head, cursor, end, pool', g) && (cursor.next == end <==> g.b == [])
      invariant g.Consistent(notified, todo) && AllMention(todo, pool' - {head})
      invariant g.s == s && g.whole == Emission(reactions, Real(s), Real(s))
      invariant todo == reactions || todo < reactions
      decreases |g.b|
    {
      notified, todo, g := Turn(head, cursor, todo, notified, end, pool', g);
      NextNode(head, g.a, cursor, g.b, end, g.c, pool');
    }
    Finish(g, notified, todo);
    turns := g.turns;
    TakeMarkers(head, cursor, end, g.a, g.c, pool');
  }

  // ------------------------------------------ what emission promises listeners

  /** What is left to do after the first listener of the queue. */
  function Later(reactions: Reactions, queue: seq<Link>, now: seq<Link>): (o: Outcome)
    requires queue != []
    ensures |o.notified| == |o.turns|
  {
    var log := Performed(FirstOf(reactions), now);
    Emission(RestOf(reactions), Prune(queue[1..], log), Apply(now, log))
  }

  lemma FirstTurn(reactions: Reactions, queue: seq<Link>, now: seq<Link>)
    requires queue != []
    ensures var o := Later(reactions, queue, now);
            Emission(reactions, queue, now)
              == Outcome([queue[0]] + o.notified, [Performed(FirstOf(reactions), now)] + o.turns)
  {
  }

  /** Only listeners that were in the list at the start are notified. */
  lemma {:induction false} NoNewcomerIsNotified(reactions: Reactions, queue: seq<Link>, now: seq<Link>, x: Link)
    requires x in Emission(reactions, queue, now).notified
    ensures x in queue
    decreases reactions, |queue|
  {
    if queue != [] && x != queue[0] {
      match reactions
      case Quiet => NoNewcomerIsNotified(Quiet, queue[1..], now, x);
      case React(first, rest) =>
        var log := Performed(first, now);
        NoNewcomerIsNotified(rest, Prune(queue[1..], log), Apply(now, log), x);
        PruneMembers(queue[1..], log, x);
    }
  }

  lemma {:induction false} PruneNoRepeats(s: seq<Link>, log: seq<Change>)
    requires NoRepeats(s)
    ensures NoRepeats(Prune(s, log))
    decreases |log|
  {
    if log != [] && log[0].Departed? {
      WithoutNoRepeats(s, log[0].listener);
      PruneNoRepeats(Without(s, log[0].listener), log[1..]);
    } else if log != [] {
      PruneNoRepeats(s, log[1..]);
    }
  }

  lemma {:induction false} PruneOne(x: Link, log: seq<Change>)
    ensures Prune([x], log) == if Leaves(x, log) then [] else [x]
    decreases |log|
  {
    PruneMembers([x], log, x);
    PruneShrinks([x], log);
    if Prune([x], log) != [] {
      PruneMembers([x], log, Prune([x], log)[0]);
    }
  }

  /** The queue around x, after the changes in log. */
  lemma PruneAround(before: seq<Link>, x: Link, after: seq<Link>, log: seq<Change>)
    requires NoRepeats(before + [x] + after)
    ensures var q := Prune(before + [x] + after, log);
            && NoRepeats(q)
            && q == Prune(before, log) + (if Leaves(x, log) then [] else [x]) + Prune(after, log)
            && (x in q <==> !Leaves(x, log))
  {
    PruneParts(before + [x], after, log);
    PruneParts(before, [x], log);
    PruneOne(x, log);
    PruneNoRepeats(before + [x] + after, log);
    PruneMembers(before + [x] + after, log, x);
  }

  lemma PruneKept(before: seq<Link>, x: Link, after: seq<Link>, log: seq<Change>)
    requires NoRepeats(before + [x] + after) && !Leaves(x, log)
    ensures Prune(before + [x] + after, log) == Prune(before, log) + [x] + Prune(after, log)
    ensures NoRepeats(Prune(before, log) + [x] + Prune(after, log))
    ensures |Prune(before, log)| <= |before|
  {
    PruneAround(before, x, after, log);
    PruneShrinks(before, log);
  }

  /** The members of the queue keep their side of x. */
  lemma PruneSides(before: seq<Link>, x: Link, after: seq<Link>, log: seq<Change>, y: Link)
    requires NoRepeats(before + [x] + after) && y in Prune(before + [x] + after, log)
    ensures y in before <==> y in Prune(before, log)
    ensures y in after <==> y in Prune(after, log)
  {
    PruneMembers(before, log, y);
    PruneMembers(after, log, y);
    PruneMembers(before + [x] + after, log, y);
  }

  /** How an emission goes on after its first turn, when x is not the first of the queue:
      notification j of the whole is notification j - 1 of the rest. */
  lemma AfterFirst(reactions: Reactions, before: seq<Link>, x: Link, after: seq<Link>, now: seq<Link>)
    returns (log: seq<Change>)
    requires before != [] && NoRepeats(before + [x] + after)
    ensures log == Performed(FirstOf(reactions), now)
    ensures NoRepeats(before[1..] + [x] + after) && x != before[0]
    ensures var o := Emission(reactions, before + [x] + after, now);
            var rest := Emission(RestOf(reactions), Prune(before[1..] + [x] + after, log), Apply(now, log));
            o == Outcome([before[0]] + rest.notified, [log] + rest.turns)
  {
    log := Performed(FirstOf(reactions), now);
    var queue := before + [x] + after;
    FirstTurn(reactions, queue, now);
    assert queue[1..] == before[1..] + [x] + after && queue[0] == before[0] && queue[|before|] == x;
  }

  lemma LaterNotified(before: seq<Link>, x: Link, after: seq<Link>, log: seq<Change>, reactions: Reactions,
                      now: seq<Link>, y: Link)
    requires NoRepeats(before + [x] + after)
    requires y in Emission(reactions, Prune(before + [x] + after, log), now).notified
    ensures y in before <==> y in Prune(before, log)
    ensures y in after <==> y in Prune(after, log)
    ensures y in before + [x] + after && !Leaves(y, log)
  {
    NoNewcomerIsNotified(reactions, Prune(before + [x] + after, log), now, y);
    PruneSides(before, x, after, log, y);
    PruneMembers(before + [x] + after, log, y);
  }

  /** A listener removed by an earlier callback is not notified. */
  lemma {:induction false} RemovedIsSkipped(reactions: Reactions, before: seq<Link>, x: Link,
                                            after: seq<Link>, now: seq<Link>, j: nat)
    requires NoRepeats(before + [x] + after)
    requires var o := Emission(reactions, before + [x] + after, now);
             j < |o.notified| && o.notified[j] in before && Leaves(x, o.turns[j])
    ensures x !in Emission(reactions, before + [x] + after, now).notified
    decreases |before|
  {
    var o := Emission(reactions, before + [x] + after, now);
    var log := AfterFirst(reactions, before, x, after, now);
    var b, r, now' := before[1..], RestOf(reactions), Apply(now, log);
    var rest := Emission(r, Prune(b + [x] + after, log), now');
    if x in rest.notified {
      LaterNotified(b, x, after, log, r, now', x);
      PruneKept(b, x, after, log);
      var y := rest.notified[j - 1];
      assert o.notified[j] == y && o.turns[j] == rest.turns[j - 1];
      LaterNotified(b, x, after, log, r, now', y);
      FirstDiffers(before, x, after, y);
      RemovedIsSkipped(r, Prune(b, log), x, Prune(after, log), now', j - 1);
    }
  }

  lemma FirstDiffers(before: seq<Link>, x: Link, after: seq<Link>, y: Link)
    requires before != [] && NoRepeats(before + [x] + after) && y in before[1..] + [x] + after
    ensures y != before[0] && (y in before <==> y in before[1..])
  {
    var queue := before + [x] + after;
    assert queue[1..] == before[1..] + [x] + after && queue[0] == before[0];
    var i :| 0 <= i < |queue[1..]| && queue[1..][i] == y;
    assert queue[i + 1] == y;
  }

  lemma FirstIsNotified(reactions: Reactions, x: Link, after: seq<Link>, now: seq<Link>)
    ensures x in Emission(reactions, [] + [x] + after, now).notified
  {
    var queue := [] + [x] + after;
    FirstTurn(reactions, queue, now);
    assert queue[0] == x && Emission(reactions, queue, now).notified[0] == x;
  }

  /** A listener that is not notified was removed by an earlier callback. */
  lemma {:induction false} SkippedWasRemoved(reactions: Reactions, before: seq<Link>, x: Link,
                                             after: seq<Link>, now: seq<Link>) returns (j: nat)
    requires NoRepeats(before + [x] + after)
    requires x !in Emission(reactions, before + [x] + after, now).notified
    ensures var o := Emission(reactions, before + [x] + after, now);
            j < |o.notified| && o.notified[j] in before && Leaves(x, o.turns[j])
    decreases |before|
  {
    var o := Emission(reactions, before + [x] + after, now);
    if before == [] {
      FirstIsNotified(reactions, x, after, now);
      assert false;
    }
    var log := AfterFirst(reactions, before, x, after, now);
    var b, r, now' := before[1..], RestOf(reactions), Apply(now, log);
    var rest := Emission(r, Prune(b + [x] + after, log), now');
    if Leaves(x, log) {
      j := 0;
      assert o.notified[0] == before[0] && o.turns[0] == log;
    } else {
      PruneKept(b, x, after, log);
      var i := SkippedWasRemoved(r, Prune(b, log), x, Prune(after, log), now');
      j := i + 1;
      assert o.notified[j] == rest.notified[i] && o.turns[j] == rest.turns[i];
      LaterNotified(b, x, after, log, r, now', rest.notified[i]);
    }
  }

  /** A listener present at the start is notified if and only if none of the callbacks of
      the listeners before it removed it. */
  lemma NotifiedUnlessRemoved(reactions: Reactions, before: seq<Link>, x: Link,
                              after: seq<Link>, now: seq<Link>)
    requires NoRepeats(before + [x] + after)
    ensures var o := Emission(reactions, before + [x] + after, now);
            x in o.notified <==>
              forall j :: 0 <= j < |o.notified| && o.notified[j] in before ==> !Leaves(x, o.turns[j])
  {
    var o := Emission(reactions, before + [x] + after, now);
    if x !in o.notified {
      var j := SkippedWasRemoved(reactions, before, x, after, now);
    }
    forall j | 0 <= j < |o.notified| && o.notified[j] in before && Leaves(x, o.turns[j])
      ensures x !in o.notified
    {
      RemovedIsSkipped(reactions, before, x, after, now, j);
    }
  }

  /** Listeners are notified once each, in the order of the list. */
  lemma {:induction false} NotifiedInOrder(reactions: Reactions, before: seq<Link>, x: Link,
                                           after: seq<Link>, now: seq<Link>, j: nat, i: nat)
    requires NoRepeats(before + [x] + after)
    requires var o := Emission(reactions, before + [x] + after, now);
             j < |o.notified| && o.notified[j] == x && i < |o.notified|
    ensures var o := Emission(reactions, before + [x] + after, now);
            (i < j ==> o.notified[i] in before) && (i > j ==> o.notified[i] in after)
    decreases |before|, 0
  {
    if before == [] {
      FirstOfQueue(reactions, x, after, now, j, i);
    } else {
      var log := AfterFirst(reactions, before, x, after, now);
      if i > 0 {
        LaterInOrder(RestOf(reactions), before[1..], x, after, log, Apply(now, log), j - 1, i - 1);
      }
    }
  }

  /** So are those that are left after some changes. */
  lemma {:induction false} LaterInOrder(reactions: Reactions, before: seq<Link>, x: Link, after: seq<Link>,
                                        log: seq<Change>, now: seq<Link>, j: nat, i: nat)
    requires NoRepeats(before + [x] + after)
    requires var o := Emission(reactions, Prune(before + [x] + after, log), now);
             j < |o.notified| && o.notified[j] == x && i < |o.notified|
    ensures var o := Emission(reactions, Prune(before + [x] + after, log), now);
            (i < j ==> o.notified[i] in before) && (i > j ==> o.notified[i] in after)
    decreases |before|, 1
  {
    var o := Emission(reactions, Prune(before + [x] + after, log), now);
    LaterNotified(before, x, after, log, reactions, now, x);
    LaterNotified(before, x, after, log, reactions, now, o.notified[i]);
    PruneKept(before, x, after, log);
    NotifiedInOrder(reactions, Prune(before, log), x, Prune(after, log), now, j, i);
  }

  lemma FirstOfQueue(reactions: Reactions, x: Link, after: seq<Link>, now: seq<Link>, j: nat, i: nat)
    requires NoRepeats([] + [x] + after)
    requires var o := Emission(reactions, [] + [x] + after, now);
             j < |o.notified| && o.notified[j] == x && i < |o.notified|
    ensures j == 0
    ensures i > 0 ==> Emission(reactions, [] + [x] + after, now).notified[i] in after
  {
    var queue := [] + [x] + after;
    var log, r := Performed(FirstOf(reactions), now), RestOf(reactions);
    assert queue[1..] == after && queue[0] == x;
    FirstTurn(reactions, queue, now);
    var o, rest := Emission(reactions, queue, now), Later(reactions, queue, now);
    forall m | 0 <= m < |after| ensures after[m] != x {
      assert queue[m + 1] == after[m];
    }
    forall k | 0 < k < |o.notified| ensures o.notified[k] in after {
      assert o.notified[k] == rest.notified[k - 1];
      NoNewcomerIsNotified(r, Prune(after, log), Apply(now, log), rest.notified[k - 1]);
      PruneMembers(after, log, rest.notified[k - 1]);
    }
  }

  /** The last change to x is that it joined. */
  predicate JoinedLast(x: Link, log: seq<Change>) {
    exists i :: 0 <= i < |log| && log[i] == Joined(x) && Departed(x) !in log[i + 1..]
  }

  lemma JoinedLastRest(x: Link, log: seq<Change>)
    requires log != []
    ensures JoinedLast(x, log) <==> (log[0] == Joined(x) && Departed(x) !in log[1..]) || JoinedLast(x, log[1..])
  {
    var rest := log[1..];
    if JoinedLast(x, rest) {
      var i :| 0 <= i < |rest| && rest[i] == Joined(x) && Departed(x) !in rest[i + 1..];
      assert log[i + 1] == Joined(x) && log[i + 2..] == rest[i + 1..];
    }
    if JoinedLast(x, log) {
      var i :| 0 <= i < |log| && log[i] == Joined(x) && Departed(x) !in log[i + 1..];
      if i > 0 {
        assert rest[i - 1] == Joined(x) && log[i + 1..] == rest[i..];
      }
    }
  }

  /** Who is in the list after some changes. */
  lemma {:induction false} MemberIff(s: seq<Link>, log: seq<Change>, x: Link)
    ensures x in Apply(s, log) <==> (x in s && Departed(x) !in log) || JoinedLast(x, log)
    decreases |log|
  {
    if log != [] {
      var l := log[0].listener;
      JoinedLastRest(x, log);
      assert Departed(x) in log <==> log[0] == Departed(x) || Departed(x) in log[1..];
      if log[0].Departed? {
        WithoutMembers(s, l, x);
      }
      MemberIff(if log[0].Joined? then s + [l] else Without(s, l), log[1..], x);
    }
  }

  /** In the end the list holds the listeners that nobody removed, in their old order,
      followed by those whose last change was to join. */
  lemma FinalList(reactions: Reactions, s: seq<Link>)
    ensures var log := Flat(Emission(reactions, s, s).turns);
            && Apply(s, log) == Prune(s, log) + Apply([], log)
            && (forall x :: x in Prune(s, log) <==> x in s && !Leaves(x, log))
            && (forall x :: x in Apply([], log) <==> JoinedLast(x, log))
  {
    var log := Flat(Emission(reactions, s, s).turns);
    assert s + [] == s;
    ApplyParts(s, [], log);
    forall x ensures x in Prune(s, log) <==> x in s && !Leaves(x, log) {
      PruneMembers(s, log, x);
    }
    forall x ensures x in Apply([], log) <==> JoinedLast(x, log) {
      MemberIff([], log, x);
    }
  }
}
