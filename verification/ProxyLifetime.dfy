/** Reference counts of proxies: queued and dispatching closures hold references to the
    proxies they mention, which the application may destroy at any time. */
module ProxyLifetime {
  import opened Wrappers
  import opened ObjectMap

  class Proxy {
    const id: nat
    const iface: string    // the name of its interface, by which interfaces are compared
    var refcount: int
    var destroyed: bool
    var idDeleted: bool
    var freed: bool        // its memory has been given back
    ghost var held: nat    // references that closures hold
    ghost var leaked: nat  // references that were forgotten

    constructor (id: nat, iface: string)
      ensures this.id == id && this.iface == iface && refcount == 1 && !destroyed && !idDeleted && !freed
      ensures held == 0 && leaked == 0
    {
      this.id, this.iface, refcount, destroyed, idDeleted, freed := id, iface, 1, false, false, false;
      held, leaked := 0, 0;
    }

    /** The exact reference count: one for the application until it destroys the proxy, one
        for each reference held, and one for each that was leaked; when it is zero, and only
        then, the memory is freed. */
    ghost predicate Counted()
      reads `refcount, `destroyed, `freed, `held, `leaked
    {
      && refcount == (if destroyed then 0 else 1) + held + leaked
      && (freed <==> refcount == 0)
      && (leaked > 0 ==> destroyed)
    }
  }

  /** An object argument of a received event: the id of a new object with its interface, or
      of a known one with the interface that the message names, if any. */
  datatype ArgId = NewId(id: nat, iface: string) | ObjectId(id: nat, wanted: Option<string>)

  /** One of the arguments is a new object under this id. */
  predicate Creates(args: seq<ArgId>, id: nat) {
    exists i :: 0 <= i < |args| && args[i].NewId? && args[i].id == id
  }

  /** The same new id comes once more before the end. */
  predicate NamedLater(args: seq<ArgId>, i: nat, end: nat)
    requires i < end <= |args|
  {
    exists k :: i < k < end && args[k].NewId? && args[k].id == args[i].id
  }

  predicate IsNew(p: Proxy, arg: ArgId) {
    arg.NewId? && p.id == arg.id && p.iface == arg.iface
  }

  /** Each new id among the first arguments got a proxy with that id which did not exist
      before, and no two share one. */
  ghost predicate OwnProxies(args: seq<ArgId>, made: seq<Option<Proxy>>, before: set<Proxy>, all: set<Proxy>) {
    && |made| <= |args|
    && (forall i :: 0 <= i < |made| ==> (made[i].Some? <==> args[i].NewId?))
    && (forall i :: 0 <= i < |made| && made[i].Some? ==>
          made[i].value in all && made[i].value !in before && IsNew(made[i].value, args[i]))
    && (forall i, j :: 0 <= i < j < |made| && made[i].Some? && made[j].Some? ==> made[i].value != made[j].value)
  }

  lemma OwnProxiesNext(args: seq<ArgId>, made: seq<Option<Proxy>>, before: set<Proxy>, all: set<Proxy>,
                       r: Option<Proxy>)
    requires OwnProxies(args, made, before, all) && |made| < |args| && before <= all
    requires r.Some? <==> args[|made|].NewId?
    requires r.Some? ==> r.value !in all && IsNew(r.value, args[|made|])
    ensures OwnProxies(args, made + [r], before, all + if r.Some? then {r.value} else {})
  {
  }

  /** The map with the proxies found for the new ids among the arguments entered in order. */
  function Entered(objects: map<nat, Proxy>, args: seq<ArgId>, found: seq<Option<Proxy>>): (m: map<nat, Proxy>)
    requires |found| <= |args|
    decreases |found|
  {
    if found == [] then objects
    else
      var n := |found| - 1;
      var m := Entered(objects, args, found[..n]);
      if found[n].Some? then m[args[n].id := found[n].value] else m
  }

  /** Such a map leads from each new id to the last proxy found for it, and from other ids to
      where it did. */
  lemma {:induction false} EnteredLast(objects: map<nat, Proxy>, args: seq<ArgId>, found: seq<Option<Proxy>>)
    requires |found| <= |args| && forall i :: 0 <= i < |found| ==> (found[i].Some? <==> args[i].NewId?)
    ensures var m := Entered(objects, args, found);
            && (forall i :: 0 <= i < |found| && found[i].Some? && !NamedLater(args, i, |found|) ==>
                  args[i].id in m && m[args[i].id] == found[i].value)
            && (forall id :: id in objects && !Creates(args, id) ==> id in m && m[id] == objects[id])
    decreases |found|
  {
    if found != [] {
      var n, m := |found| - 1, Entered(objects, args, found);
      EnteredLast(objects, args, found[..n]);
      assert found[n].Some? ==> Creates(args, args[n].id);
      forall i | 0 <= i < |found| && found[i].Some? && !NamedLater(args, i, |found|)
        ensures args[i].id in m && m[args[i].id] == found[i].value
      {
        if i < n {
          assert !NamedLater(args, i, n) && found[..n][i] == found[i];
          assert args[n].NewId? ==> args[n].id != args[i].id;
        }
      }
    }
  }

  /** A closure that waits for dispatch or is being dispatched. */
  datatype Event = Event(proxy: Proxy, args: seq<Option<Proxy>>)

  /** The references of a closure, in the order in which they are given back. */
  function RefList(e: Event): seq<Option<Proxy>> {
    e.args + [Some(e.proxy)]
  }

  function Times(p: Proxy, refs: seq<Option<Proxy>>): (n: nat) {
    if refs == [] then 0 else (if refs[0] == Some(p) then 1 else 0) + Times(p, refs[1..])
  }

  /** How often the closures refer to p. */
  function Held(p: Proxy, events: seq<Event>): (n: nat) {
    if events == [] then 0 else Times(p, RefList(events[0])) + Held(p, events[1..])
  }

  /** The map once the application has destroyed the proxy of an id.  An id of the server whose
      deletion was announced is not removed, and its entry stays. */
  function ObjectsAfter(objects: map<nat, Proxy>, id: nat, idDeleted: bool): map<nat, Proxy> {
    if idDeleted && !IsClientId(id) then objects else objects - {id}
  }

  /** The map leads to the proxy afterwards, under any id, exactly if its entry stays. */
  lemma LeadsAfter(objects: map<nat, Proxy>, p: Proxy, idDeleted: bool)
    requires KeyedById(objects)
    ensures var after, stays := ObjectsAfter(objects, p.id, idDeleted), idDeleted && !IsClientId(p.id);
            && KeyedById(after) && after.Values <= objects.Values
            && (p in after.Values <==> p.id in objects && objects[p.id] == p && stays)
            && (p in after.Values <==> p.id in after && after[p.id] == p)
  {
    var after := ObjectsAfter(objects, p.id, idDeleted);
    if p in after.Values {
      var id :| id in after && after[id] == p;
    }
  }

  lemma OneMoreGone(gone: set<Proxy>, p: Proxy, a: set<Proxy>, a': set<Proxy>, known: set<Proxy>, known': set<Proxy>)
    requires gone * a <= known <= known' && a' <= a && (p in a' ==> p in known')
    ensures (gone + {p}) * a' <= known'
  {
    forall q | q in (gone + {p}) * a' ensures q in known' {
      assert q != p ==> q in gone * a;
    }
  }

  lemma OneMoreNamed(gone: set<Proxy>, p: Proxy, a: set<Proxy>, named: set<Proxy>, stale: set<Proxy>,
                     stale': set<Proxy>)
    requires gone * a <= named + stale && stale <= stale'
    ensures (gone + {p}) * a <= named + {p} * a + stale'
  {
    forall q | q in (gone + {p}) * a ensures q in named + {p} * a + stale' {
      assert q != p ==> q in gone * a;
    }
  }

  /** Destroying a proxy, on the id map itself. */
  function MapAfterDestroy<T>(m: ObjectMap<T>, id: nat, idDeleted: bool, zombie: Option<T>): Result<ObjectMap<T>>
    requires Taken(m, id)
  {
    if idDeleted then Ok(Remove(m, id))
    else if IsClientId(id) then InsertAt(m, true, id, zombie)
    else InsertAt(m, false, id, None)
  }

  /** In the id map of a client the entry stays exactly for a server id whose deletion was
      announced; a client id leaves a zombie until its deletion is announced, and no other
      entry changes. */
  lemma EntryAfterDestroy<T>(m: ObjectMap<T>, id: nat, idDeleted: bool, zombie: Option<T>, x: nat)
    requires m.side == ClientSide && Taken(m, id) && Index(id) <= MAX_OBJECTS
    ensures var r := MapAfterDestroy(m, id, idDeleted, zombie);
            r.Ok? && Observe(r.value, x) ==
              if x != id || (idDeleted && !IsClientId(id)) then Observe(m, x)
              else if idDeleted || !IsClientId(id) then (None, false)
              else (zombie, true)
  {
  }

  /** Which entries are zombies once the application has destroyed the proxy of an id: only
      ids of the client whose deletion the server has not confirmed need one. */
  function ZombiesAfter(zombies: set<nat>, id: nat, idDeleted: bool): set<nat> {
    if idDeleted then zombies - {id} else if IsClientId(id) then zombies + {id} else zombies
  }

  ghost predicate Within(refs: seq<Option<Proxy>>, all: set<Proxy>) {
    forall i :: 0 <= i < |refs| && refs[i].Some? ==> refs[i].value in all
  }

  /** Some closure names p as an argument. */
  ghost predicate NamedIn(p: Proxy, events: seq<Event>) {
    exists k :: 0 <= k < |events| && Some(p) in events[k].args
  }

  function Without(events: seq<Event>, k: nat): seq<Event>
    requires k < |events|
  {
    events[..k] + events[k + 1..]
  }

  ghost function NamedAmong(all: set<Proxy>, events: seq<Event>): set<Proxy> {
    set p | p in all && NamedIn(p, events)
  }

  ghost function ArgsAmong(all: set<Proxy>, e: Event): set<Proxy> {
    set p | p in all && Some(p) in e.args
  }

  lemma NamedWithout(all: set<Proxy>, events: seq<Event>, k: nat)
    requires k < |events|
    ensures NamedAmong(all, Without(events, k)) <= NamedAmong(all, events)
    ensures ArgsAmong(all, events[k]) <= NamedAmong(all, events)
  {
    forall p | p in all && NamedIn(p, Without(events, k)) ensures NamedIn(p, events) {
      var j :| 0 <= j < |Without(events, k)| && Some(p) in Without(events, k)[j].args;
      assert Without(events, k)[j] == events[if j < k then j else j + 1];
    }
  }

  lemma NamedAppended(all: set<Proxy>, events: seq<Event>, e: Event)
    ensures NamedAmong(all, events + [e]) == NamedAmong(all, events) + ArgsAmong(all, e)
  {
    var events' := events + [e];
    forall p | p in all ensures NamedIn(p, events') <==> NamedIn(p, events) || Some(p) in e.args {
      assert events'[|events|] == e;
      if k :| 0 <= k < |events| && Some(p) in events[k].args {
        assert events'[k] == events[k];
      }
    }
  }

  lemma NewIsNotNamed(all: set<Proxy>, p: Proxy, events: seq<Event>)
    requires p !in all && forall k :: 0 <= k < |events| ==> Within(RefList(events[k]), all)
    ensures NamedAmong(all + {p}, events) == NamedAmong(all, events)
  {
    forall k | 0 <= k < |events| ensures Some(p) !in events[k].args {
      assert forall i :: 0 <= i < |events[k].args| ==> RefList(events[k])[i] == events[k].args[i];
    }
  }

  /** The arguments of a closure after those that the application has destroyed became NULL. */
  function Checked(args: seq<Option<Proxy>>, destroyed: set<Proxy>): (r: seq<Option<Proxy>>)
    ensures |r| == |args|
    ensures forall i :: 0 <= i < |args| ==>
              r[i] == if args[i].Some? && args[i].value in destroyed then None else args[i]
  {
    seq(|args|, i requires 0 <= i < |args| =>
      if args[i].Some? && args[i].value in destroyed then None else args[i])
  }

  /** What the arguments of an event become: a new proxy for each new id, the known proxies
      for the others. */
  predicate Linked(args: seq<ArgId>, found: seq<Option<Proxy>>, before: set<Proxy>, objects: map<nat, Proxy>,
                   zombies: set<nat>)
  {
    && |found| == |args|
    && forall i :: 0 <= i < |args| ==>
         if args[i].NewId? then found[i].Some? && IsNew(found[i].value, args[i]) && found[i].value !in before
         else found[i] == Target(objects, zombies, args[i].id)
  }

  /** The map leads from each new id to the last proxy made for it, and from other ids to where
      it did. */
  predicate Follows(objects: map<nat, Proxy>, args: seq<ArgId>, found: seq<Option<Proxy>>, objects': map<nat, Proxy>)
    requires |found| == |args|
  {
    && (forall i :: 0 <= i < |args| && args[i].NewId? && found[i].Some? && !NamedLater(args, i, |args|) ==>
          args[i].id in objects' && objects'[args[i].id] == found[i].value)
    && KeepsOthers(objects, args, objects')
  }

  predicate KeepsOthers(objects: map<nat, Proxy>, args: seq<ArgId>, objects': map<nat, Proxy>) {
    forall id :: id in objects && !Creates(args, id) ==> id in objects' && objects'[id] == objects[id]
  }

  /** An object argument is NULL, destroyed, or known and of the interface named. */
  predicate Resolves(objects: map<nat, Proxy>, zombies: set<nat>, arg: ArgId) {
    arg.ObjectId? ==>
      || arg.id == 0 || arg.id in zombies
      || (arg.id in objects && (arg.wanted.Some? ==> objects[arg.id].iface == arg.wanted.value))
  }

  predicate AllResolve(objects: map<nat, Proxy>, zombies: set<nat>, args: seq<ArgId>) {
    forall i :: 0 <= i < |args| ==> Resolves(objects, zombies, args[i])
  }

  /** The first n arguments have been looked up. */
  predicate LookedUp(objects: map<nat, Proxy>, zombies: set<nat>, args: seq<ArgId>, created: seq<Option<Proxy>>,
                     found: seq<Option<Proxy>>, n: nat)
  {
    && |found| == |args| == |created|
    && forall i :: 0 <= i < |found| ==>
         found[i] == if i >= n || args[i].NewId? then created[i] else Target(objects, zombies, args[i].id)
  }

  /** A new id is not one of the server's or is in use. */
  predicate NewIdRefused(objects: map<nat, Proxy>, zombies: set<nat>, args: seq<ArgId>) {
    exists i :: 0 <= i < |args| && Unavailable(objects, zombies, args[i])
  }

  predicate Unavailable(objects: map<nat, Proxy>, zombies: set<nat>, arg: ArgId) {
    arg.NewId? && (IsClientId(arg.id) || arg.id in objects || arg.id in zombies)
  }

  /** The map leads from an object argument to a proxy whose memory is gone. */
  ghost predicate Dangles(objects: map<nat, Proxy>, zombies: set<nat>, freed: set<Proxy>, arg: ArgId) {
    arg.ObjectId? && arg.id !in zombies && arg.id in objects && objects[arg.id] in freed
  }

  /** Looking up the arguments in turn uses the memory of such a proxy: at once to compare its
      interface, or when the references are counted, if no argument was refused before. */
  ghost predicate Touches(objects: map<nat, Proxy>, zombies: set<nat>, freed: set<Proxy>, args: seq<ArgId>) {
    exists i :: 0 <= i < |args| && Dangles(objects, zombies, freed, args[i])
                && AllResolve(objects, zombies, args[..i])
                && (args[i].wanted.Some? || AllResolve(objects, zombies, args))
  }

  /** What becomes of an event that is received; of one that uses freed memory nothing is known. */
  datatype Fate = Discarded | Refused | Queued | Undefined

  /** What an object argument becomes. */
  function Target(objects: map<nat, Proxy>, zombies: set<nat>, id: nat): Option<Proxy> {
    if id in zombies || id !in objects then None else Some(objects[id])
  }

  lemma LinkedNew(args: seq<ArgId>, created: seq<Option<Proxy>>, found: seq<Option<Proxy>>, before: set<Proxy>,
                  all: set<Proxy>, objects: map<nat, Proxy>, zombies: set<nat>)
    requires OwnProxies(args, created, before, all) && LookedUp(objects, zombies, args, created, found, |args|)
    ensures Linked(args, found, before, objects, zombies)
  {
  }

  lemma FollowsFound(objects: map<nat, Proxy>, args: seq<ArgId>, created: seq<Option<Proxy>>, found: seq<Option<Proxy>>,
                     objects': map<nat, Proxy>)
    requires |created| == |args| == |found| && Follows(objects, args, created, objects')
    requires forall i :: 0 <= i < |args| && args[i].NewId? ==> found[i] == created[i]
    ensures Follows(objects, args, found, objects')
  {
  }

  // ------------------------------------------------------------- counting

  lemma {:induction false} TimesParts(p: Proxy, a: seq<Option<Proxy>>, b: seq<Option<Proxy>>)
    ensures Times(p, a + b) == Times(p, a) + Times(p, b)
  {
    if a == [] {
      assert a + b == b;
    } else {
      TimesParts(p, a[1..], b);
      assert (a + b)[1..] == a[1..] + b;
    }
  }

  lemma TimesOne(p: Proxy, r: Option<Proxy>)
    ensures Times(p, [r]) == if r == Some(p) then 1 else 0
  {
    assert [r][1..] == [];
  }

  lemma {:induction false} HeldParts(p: Proxy, a: seq<Event>, b: seq<Event>)
    ensures Held(p, a + b) == Held(p, a) + Held(p, b)
  {
    if a == [] {
      assert a + b == b;
    } else {
      HeldParts(p, a[1..], b);
      assert (a + b)[1..] == a[1..] + b;
    }
  }

  lemma HeldOne(p: Proxy, e: Event)
    ensures Held(p, [e]) == Times(p, RefList(e))
  {
    assert [e][1..] == [];
  }

  lemma {:induction false} AbsentTimes(p: Proxy, refs: seq<Option<Proxy>>)
    requires Some(p) !in refs
    ensures Times(p, refs) == 0
  {
    if refs != [] {
      AbsentTimes(p, refs[1..]);
    }
  }

  lemma {:induction false} AbsentHeld(p: Proxy, events: seq<Event>)
    requires forall k :: 0 <= k < |events| ==> Some(p) !in RefList(events[k])
    ensures Held(p, events) == 0
  {
    if events != [] {
      AbsentTimes(p, RefList(events[0]));
      AbsentHeld(p, events[1..]);
    }
  }

  /** A proxy that a closure refers to is counted. */
  lemma {:induction false} MentionedIsCounted(p: Proxy, refs: seq<Option<Proxy>>, i: nat)
    requires i < |refs| && refs[i] == Some(p)
    ensures Times(p, refs) > 0
    decreases i
  {
    if i > 0 {
      MentionedIsCounted(p, refs[1..], i - 1);
    }
  }

  lemma {:induction false} EventIsCounted(p: Proxy, events: seq<Event>, k: nat)
    requires k < |events| && Times(p, RefList(events[k])) > 0
    ensures Held(p, events) > 0
    decreases k
  {
    if k > 0 {
      EventIsCounted(p, events[1..], k - 1);
    }
  }

  lemma TimesNext(p: Proxy, refs: seq<Option<Proxy>>, i: nat)
    requires i < |refs|
    ensures Times(p, refs[i..]) == (if refs[i] == Some(p) then 1 else 0) + Times(p, refs[i + 1..])
  {
    assert refs[i..][1..] == refs[i + 1..];
  }

  lemma TimesLast(p: Proxy, refs: seq<Option<Proxy>>, i: nat)
    requires i < |refs|
    ensures Times(p, refs[..i + 1]) == Times(p, refs[..i]) + if refs[i] == Some(p) then 1 else 0
  {
    assert refs[..i + 1] == refs[..i] + [refs[i]];
    TimesParts(p, refs[..i], [refs[i]]);
    TimesOne(p, refs[i]);
  }

  /** A reference becomes NULL. */
  lemma TimesNulled(p: Proxy, refs: seq<Option<Proxy>>, i: nat)
    requires i < |refs|
    ensures Times(p, refs) == Times(p, refs[i := None]) + if refs[i] == Some(p) then 1 else 0
  {
    var a, b := refs[..i], refs[i + 1..];
    assert refs == a + ([refs[i]] + b) && refs[i := None] == a + ([None] + b);
    TimesParts(p, a, [refs[i]] + b);
    TimesParts(p, a, [None] + b);
    TimesParts(p, [refs[i]], b);
    TimesParts(p, [None], b);
    TimesOne(p, refs[i]);
    TimesOne(p, None);
  }

  lemma AllTimesNulled(p: Proxy, refs: seq<Option<Proxy>>, i: nat)
    requires i < |refs| && refs[i] == Some(p)
    ensures forall q {:trigger Times(q, refs)} :: Times(q, refs) == Times(q, refs[i := None]) + if q == p then 1 else 0
  {
    forall q ensures Times(q, refs) == Times(q, refs[i := None]) + if q == p then 1 else 0 {
      TimesNulled(q, refs, i);
    }
  }

  lemma HeldWithout(p: Proxy, d: seq<Event>, k: nat)
    requires k < |d|
    ensures Held(p, d) == Held(p, Without(d, k)) + Times(p, RefList(d[k]))
  {
    assert d == d[..k] + ([d[k]] + d[k + 1..]);
    HeldParts(p, d[..k], [d[k]] + d[k + 1..]);
    HeldParts(p, [d[k]], d[k + 1..]);
    HeldParts(p, d[..k], d[k + 1..]);
    HeldOne(p, d[k]);
  }

  lemma CheckedNext(args: seq<Option<Proxy>>, destroyed: set<Proxy>, i: nat)
    requires i < |args|
    ensures var done := Checked(args[..i], destroyed) + args[i..];
            && done[i] == args[i]
            && Checked(args[..i + 1], destroyed) + args[i + 1..]
               == if args[i].Some? && args[i].value in destroyed then done[i := None] else done
  {
    assert args[..i + 1][..i] == args[..i];
  }

  /** Checking the arguments takes away exactly the references to destroyed proxies. */
  lemma {:induction false} TimesChecked(p: Proxy, args: seq<Option<Proxy>>, destroyed: set<Proxy>)
    ensures Times(p, Checked(args, destroyed)) == if p in destroyed then 0 else Times(p, args)
  {
    if args != [] {
      TimesChecked(p, args[1..], destroyed);
      assert Checked(args, destroyed)[1..] == Checked(args[1..], destroyed);
    }
  }

  lemma RefsChecked(p: Proxy, e: Event, destroyed: set<Proxy>)
    ensures var forgotten := Times(p, RefList(e)) - Times(p, RefList(Event(e.proxy, Checked(e.args, destroyed))));
            forgotten >= 0 && (forgotten > 0 <==> p in destroyed && Some(p) in e.args)
  {
    TimesParts(p, e.args, [Some(e.proxy)]);
    TimesParts(p, Checked(e.args, destroyed), [Some(e.proxy)]);
    TimesChecked(p, e.args, destroyed);
    if Some(p) in e.args {
      var i :| 0 <= i < |e.args| && e.args[i] == Some(p);
      MentionedIsCounted(p, e.args, i);
    } else {
      AbsentTimes(p, e.args);
    }
  }

  lemma AllRefsChecked(e: Event, destroyed: set<Proxy>)
    ensures forall p {:trigger Times(p, RefList(e))} ::
              var forgotten := Times(p, RefList(e)) - Times(p, RefList(Event(e.proxy, Checked(e.args, destroyed))));
              forgotten >= 0 && (forgotten > 0 <==> p in destroyed && Some(p) in e.args)
  {
    forall p
      ensures var forgotten := Times(p, RefList(e)) - Times(p, RefList(Event(e.proxy, Checked(e.args, destroyed))));
              forgotten >= 0 && (forgotten > 0 <==> p in destroyed && Some(p) in e.args)
    {
      RefsChecked(p, e, destroyed);
    }
  }

  /** The references that closures hold or owe. */
  ghost function Owing(all: set<Proxy>, queued: seq<Event>, dispatching: seq<Event>, owed: seq<Option<Proxy>>)
    : map<Proxy, int>
  {
    map p | p in all :: Held(p, queued) + Held(p, dispatching) + Times(p, owed)
  }

  lemma OwingNew(all: set<Proxy>, p: Proxy, queued: seq<Event>, dispatching: seq<Event>)
    requires Held(p, queued) == 0 && Held(p, dispatching) == 0
    ensures Owing(all + {p}, queued, dispatching, []) == Owing(all, queued, dispatching, [])[p := 0]
  {
    assert Times(p, []) == 0;
  }

  lemma OwingForgotten(all: set<Proxy>, p: Proxy, queued: seq<Event>, dispatching: seq<Event>,
                       refs: seq<Option<Proxy>>, i: nat)
    requires p in all && i < |refs| && refs[i] == Some(p)
    ensures var owing := Owing(all, queued, dispatching, refs);
            Owing(all, queued, dispatching, refs[i := None]) == owing[p := owing[p] - 1]
            && owing[p] > 0
  {
    MentionedIsCounted(p, refs, i);
    forall q | q in all ensures Times(q, refs) == Times(q, refs[i := None]) + if q == p then 1 else 0 {
      TimesNulled(q, refs, i);
    }
  }

  /** Closures refer to these proxies only. */
  ghost predicate KnownIn(all: set<Proxy>, events: seq<Event>) {
    forall k :: 0 <= k < |events| ==> Within(RefList(events[k]), all)
  }

  lemma KnownWithout(all: set<Proxy>, events: seq<Event>, k: nat)
    requires k < |events| && KnownIn(all, events)
    ensures KnownIn(all, Without(events, k)) && Within(RefList(events[k]), all)
  {
  }

  /** The proxies among these. */
  ghost function Among(found: seq<Option<Proxy>>): set<Proxy> {
    set r | r in found && r.Some? :: r.value
  }

  lemma AmongUpdate(found: seq<Option<Proxy>>, i: nat, r: Option<Proxy>)
    requires i < |found|
    ensures Among(found[i := r]) <= Among(found) + (if r.Some? then {r.value} else {})
  {
  }

  lemma AmongAppend(found: seq<Option<Proxy>>, r: Option<Proxy>)
    ensures Among(found + [r]) == Among(found) + (if r.Some? then {r.value} else {})
  {
    assert (found + [r])[|found|] == r;
    forall x | x in found ensures x in found + [r] {
      var i :| 0 <= i < |found| && found[i] == x;
      assert (found + [r])[i] == x;
    }
  }

  /** One of these arguments leads to a proxy whose memory is gone. */
  ghost predicate SomeDangles(objects: map<nat, Proxy>, zombies: set<nat>, freed: set<Proxy>, args: seq<ArgId>) {
    exists j :: 0 <= j < |args| && Dangles(objects, zombies, freed, args[j])
  }

  lemma DanglesNext(objects: map<nat, Proxy>, zombies: set<nat>, freed: set<Proxy>, args: seq<ArgId>, i: nat)
    requires i < |args|
    ensures SomeDangles(objects, zombies, freed, args[..i + 1]) <==>
              SomeDangles(objects, zombies, freed, args[..i]) || Dangles(objects, zombies, freed, args[i])
  {
    assert args[..i + 1] == args[..i] + [args[i]];
    if Dangles(objects, zombies, freed, args[i]) {
      assert args[..i + 1][i] == args[i];
    }
    if j :| 0 <= j < i && Dangles(objects, zombies, freed, args[..i][j]) {
      assert args[..i + 1][j] == args[..i][j];
    }
  }

  lemma TouchesAt(objects: map<nat, Proxy>, zombies: set<nat>, freed: set<Proxy>, args: seq<ArgId>, i: nat)
    requires i < |args| && Dangles(objects, zombies, freed, args[i]) && args[i].wanted.Some?
    requires AllResolve(objects, zombies, args[..i])
    ensures Touches(objects, zombies, freed, args)
  {
  }

  /** An argument is refused before anything was touched. */
  lemma RefusedUntouched(objects: map<nat, Proxy>, zombies: set<nat>, freed: set<Proxy>, args: seq<ArgId>, i: nat)
    requires i < |args| && !Resolves(objects, zombies, args[i])
    requires forall j :: 0 <= j <= i && Dangles(objects, zombies, freed, args[j]) ==> args[j].wanted.None?
    ensures !Touches(objects, zombies, freed, args) && !AllResolve(objects, zombies, args)
  {
    forall j | 0 <= j < |args| && Dangles(objects, zombies, freed, args[j])
      ensures !AllResolve(objects, zombies, args[..j]) || (args[j].wanted.None? && !AllResolve(objects, zombies, args))
    {
      if j > i {
        assert args[..j][i] == args[i];
      }
    }
  }

  /** No argument is refused: any that dangles is touched. */
  lemma AllTouched(objects: map<nat, Proxy>, zombies: set<nat>, freed: set<Proxy>, args: seq<ArgId>)
    requires AllResolve(objects, zombies, args)
    ensures Touches(objects, zombies, freed, args) <==> SomeDangles(objects, zombies, freed, args)
  {
    forall j | 0 <= j < |args| ensures AllResolve(objects, zombies, args[..j]) {
      assert forall k :: 0 <= k < j ==> args[..j][k] == args[k];
    }
  }

  /** If none dangles, what was found is there. */
  lemma NoneFreed(objects: map<nat, Proxy>, zombies: set<nat>, freed: set<Proxy>, args: seq<ArgId>,
                  created: seq<Option<Proxy>>, found: seq<Option<Proxy>>)
    requires Among(created) * freed == {} && LookedUp(objects, zombies, args, created, found, |args|)
    requires !SomeDangles(objects, zombies, freed, args)
    ensures Among(found) * freed == {}
  {
    forall i | 0 <= i < |found| && found[i].Some? ensures found[i].value !in freed {
      assert !Dangles(objects, zombies, freed, args[i]);
      if args[i].NewId? {
        assert found[i] in created && found[i].value in Among(created);
        assert found[i].value !in Among(created) * freed;
      }
    }
    forall p | p in Among(found) ensures p !in freed {
      var r :| r in found && r == Some(p);
      var i :| 0 <= i < |found| && found[i] == r;
    }
  }

  predicate KeyedById(objects: map<nat, Proxy>) {
    forall id :: id in objects ==> objects[id].id == id
  }

  lemma EntersOne(objects: map<nat, Proxy>, p: Proxy)
    requires KeyedById(objects)
    ensures KeyedById(objects[p.id := p]) && objects[p.id := p].Values <= objects.Values + {p}
  {
  }

  function Elements(made: seq<Proxy>): set<Proxy> {
    set p | p in made
  }

  // ------------------------------------------------------------- the client

  class Client {
    var objects: map<nat, Proxy>     // the entries of the id map that are proxies
    var zombies: set<nat>            // the zombie entries
    var queued: seq<Event>           // the closures in the event queues
    var dispatching: seq<Event>      // closures whose handlers are running
    var made: seq<Proxy>             // the proxies ever created
    ghost var all: set<Proxy>        // the same
    ghost var named: set<Proxy>      // those that a queued closure named when they were destroyed
    ghost var lost: set<Proxy>       // those with which a closure was dispatched after that
    ghost var stale: set<Proxy>      // those to which the map still led when they were destroyed
    var broken: bool                 // memory that was freed has been used; nothing is known from then on

    ghost predicate Valid()
      reads this, all
    {
      Sound() && Balanced([]) && KnownIn(all, queued) && KnownIn(all, dispatching) && Foreseen() && Marked()
    }

    /** A proxy is stale only if its id is one of the server's and was announced as deleted;
        and freed memory is used only after that. */
    ghost predicate Marked()
      reads `stale, `broken, `all, all`idDeleted
    {
      stale <= ServerMarked() && (broken ==> stale != {})
    }

    /** The proxies whose id is one of the server's and was announced as deleted. */
    ghost function ServerMarked(): set<Proxy>
      reads `all, all`idDeleted
    {
      set p | p in all && p.idDeleted && !IsClientId(p.id)
    }

    /** Every count is exact. */
    ghost predicate Counts()
      reads `all, all`refcount, all`destroyed, all`freed, all`held, all`leaked
    {
      Miscounted() == {}
    }

    ghost function Miscounted(): set<Proxy>
      reads `all, all`refcount, all`destroyed, all`freed, all`held, all`leaked
    {
      set p | p in all && !p.Counted()
    }

    lemma CountsEach()
      ensures Counts() <==> forall p :: p in all ==> p.Counted()
    {
      if Counts() {
        forall p | p in all ensures p.Counted() {
          assert p !in Miscounted();
        }
      }
    }

    /** The map holds proxies under their ids, and the destroyed ones among them are stale. */
    ghost predicate Mapped()
      reads `objects, `all, `made, `stale, all`destroyed
    {
      all == Elements(made) && KeyedById(objects) && objects.Values <= all && objects.Values * Destroyed() <= stale
    }

    ghost predicate Sound()
      reads `objects, `all, `made, `stale, all`refcount, all`destroyed, all`freed, all`held, all`leaked
    {
      Counts() && Mapped()
    }

    /** The references held are those of the closures, and those in owed. */
    ghost predicate Balanced(owed: seq<Option<Proxy>>)
      reads `queued, `dispatching, `all, all`held
    {
      Holding() == Owing(all, queued, dispatching, owed)
    }

    ghost function Holding(): map<Proxy, int>
      reads `all, all`held
    {
      map p | p in all :: p.held
    }

    /** The same, proxy by proxy. */
    ghost predicate EachBalanced(owed: seq<Option<Proxy>>)
      reads `queued, `dispatching, `all, all`held
    {
      forall p :: p in all ==> p.held == Held(p, queued) + Held(p, dispatching) + Times(p, owed)
    }

    lemma BalancedEach(owed: seq<Option<Proxy>>)
      ensures Balanced(owed) <==> EachBalanced(owed)
    {
      if Balanced(owed) {
        forall p | p in all ensures p.held == Held(p, queued) + Held(p, dispatching) + Times(p, owed) {
          assert Holding()[p] == Owing(all, queued, dispatching, owed)[p];
        }
      }
    }

    /** References were leaked of exactly the lost proxies, all of which were named when they
        were destroyed or stale; and so are the destroyed ones that a queued closure names. */
    ghost predicate Foreseen()
      reads `queued, `all, `named, `lost, `stale, all`destroyed, all`leaked
    {
      && Leaking() == lost <= named + stale <= Destroyed()
      && Destroyed() * NamedAmong(all, queued) <= named + stale
    }

    ghost function Freed(): set<Proxy>
      reads `all, all`freed
    {
      set p | p in all && p.freed
    }

    ghost function Destroyed(): set<Proxy>
      reads `all, all`destroyed
    {
      set p | p in all && p.destroyed
    }

    ghost function Leaking(): set<Proxy>
      reads `all, all`leaked
    {
      set p | p in all && p.leaked > 0
    }

    constructor ()
      ensures Valid() && all == {} && queued == [] && dispatching == [] && objects == map[] && zombies == {}
      ensures named == stale == {} && !broken
    {
      objects, zombies, queued, dispatching, made, all := map[], {}, [], [], [], {};
      named, lost, stale, broken := {}, {}, {}, false;
    }

    /** wl_proxy_unref, for a reference that is no longer counted.  Both of its asserts
        hold: the count is positive, and when it drops to zero the proxy has been destroyed. */
    method Unref(p: Proxy)
      requires p.refcount == 1 + (if p.destroyed then 0 else 1) + p.held + p.leaked
      requires !p.freed && (p.leaked > 0 ==> p.destroyed)
      modifies p`refcount, p`freed
      ensures p.Counted() && p.refcount == old(p.refcount) - 1
    {
      assert p.refcount > 0;
      p.refcount := p.refcount - 1;
      if p.refcount > 0 {
        return;
      }
      assert p.destroyed;
      p.freed := true;
    }

    /** The first of the references owed is given back. */
    method GiveBack(refs: seq<Option<Proxy>>, i: nat)
      requires i < |refs| && Counts() && Balanced(refs[i..]) && Within(refs, all)
      modifies all`refcount, all`freed, all`held
      ensures Counts() && Balanced(refs[i + 1..])
    {
      BalancedEach(refs[i..]);
      forall p | p in all
        ensures Times(p, refs[i..]) == (if refs[i] == Some(p) then 1 else 0) + Times(p, refs[i + 1..])
      {
        TimesNext(p, refs, i);
      }
      CountsEach();
      if refs[i].Some? {
        var p := refs[i].value;
        assert p in all && p.Counted() && p.held > 0;
        p.held := p.held - 1;
        Unref(p);
      }
      CountsEach();
      BalancedEach(refs[i + 1..]);
    }

    /** destroy_queued_closure: the arguments and the proxy lose a reference each. */
    method DestroyQueuedClosure(e: Event)
      requires Counts() && Balanced(RefList(e)) && Within(RefList(e), all)
      modifies all`refcount, all`freed, all`held
      ensures Counts() && Balanced([])
    {
      var refs := RefList(e);
      assert refs[0..] == refs;
      for i := 0 to |refs|
        invariant Counts() && Balanced(refs[i..])
      {
        GiveBack(refs, i);
      }
      assert refs[|refs|..] == [];
    }

    /** One more reference. */
    method Take(refs: seq<Option<Proxy>>, i: nat)
      requires i < |refs| && Counts() && Balanced(refs[..i]) && Within(refs, all)
      requires refs[i].Some? ==> !refs[i].value.freed
      modifies all`refcount, all`held
      ensures Counts() && Balanced(refs[..i + 1])
    {
      forall p | p in all ensures Times(p, refs[..i + 1]) == Times(p, refs[..i]) + if refs[i] == Some(p) then 1 else 0 {
        TimesLast(p, refs, i);
      }
      BalancedEach(refs[..i]);
      CountsEach();
      if refs[i].Some? {
        var p := refs[i].value;
        assert p in all && p.Counted();
        p.refcount, p.held := p.refcount + 1, p.held + 1;
      }
      CountsEach();
      BalancedEach(refs[..i + 1]);
    }

    lemma NotFreed(refs: seq<Option<Proxy>>, i: nat)
      requires Within(refs, all) && i < |refs| && Among(refs) * Freed() == {}
      ensures refs[i].Some? ==> !refs[i].value.freed
    {
      if refs[i].Some? {
        assert refs[i] in refs && refs[i].value in Among(refs);
        assert refs[i].value !in Among(refs) * Freed();
      }
    }

    /** increase_closure_args_refcount. */
    method IncreaseArgsRefcount(e: Event)
      requires Counts() && Balanced([]) && Within(RefList(e), all) && Among(RefList(e)) * Freed() == {}
      modifies all`refcount, all`held
      ensures Counts() && Balanced(RefList(e))
    {
      var refs := RefList(e);
      assert refs[..0] == [];
      for i := 0 to |refs|
        invariant Counts() && Balanced(refs[..i]) && Among(refs) * Freed() == {}
      {
        NotFreed(refs, i);
        Take(refs, i);
      }
      assert refs[..|refs|] == refs;
    }

    /** The end of queue_event: the closure takes its references and joins a queue. */
    method Enqueue(e: Event)
      requires Valid() && Live(e.args) && e.proxy in all && !e.proxy.freed
      modifies all`refcount, all`held, `queued
      ensures Valid() && queued == old(queued) + [e]
    {
      LiveRefs(e);
      IncreaseArgsRefcount(e);
      NamedAppended(all, queued, e);
      NotDestroyed(e);
      Append(e);
    }

    method Append(e: Event)
      requires Balanced(RefList(e)) && Within(RefList(e), all) && KnownIn(all, queued)
      modifies `queued
      ensures Balanced([]) && KnownIn(all, queued) && queued == old(queued) + [e]
    {
      forall p | p in all ensures Held(p, queued + [e]) == Held(p, queued) + Times(p, RefList(e)) {
        HeldParts(p, queued, [e]);
        HeldOne(p, e);
      }
      BalancedEach(RefList(e));
      queued := queued + [e];
      BalancedEach([]);
    }

    lemma NotDestroyed(e: Event)
      requires Live(e.args)
      ensures Destroyed() * ArgsAmong(all, e) <= stale
    {
      forall p | Some(p) in e.args ensures p in Among(e.args) {}
    }

    lemma LiveRefs(e: Event)
      requires Live(e.args) && e.proxy in all && !e.proxy.freed
      ensures Within(RefList(e), all) && Among(RefList(e)) * Freed() == {}
    {
      AmongAppend(e.args, Some(e.proxy));
      forall i | 0 <= i < |RefList(e)| && RefList(e)[i].Some? ensures RefList(e)[i].value in all {
        assert RefList(e)[i] in RefList(e) && RefList(e)[i].value in Among(RefList(e));
      }
    }

    /** The destroyed proxies among the arguments of a closure. */
    ghost function LostIn(e: Event): set<Proxy>
      reads `all, all`destroyed
    {
      Destroyed() * ArgsAmong(all, e)
    }

    /** validate_closure_objects: arguments that the application has destroyed become NULL,
        and the references they held are leaked. */
    method ValidateClosureObjects(e: Event) returns (e': Event)
      requires Counts() && Balanced(RefList(e)) && Within(RefList(e), all)
      modifies all`held, all`leaked
      ensures Counts() && Balanced(RefList(e')) && Within(RefList(e'), all)
      ensures e' == Event(e.proxy, Checked(e.args, Destroyed()))
      ensures forall p :: p in all ==> p.leaked + Times(p, RefList(e')) == old(p.leaked) + Times(p, RefList(e))
    {
      e' := e;
      assert Checked(e.args[..0], Destroyed()) + e.args[0..] == e.args;
      for i := 0 to |e.args|
        invariant Counts() && Balanced(RefList(e')) && Within(RefList(e'), all)
        invariant e' == Event(e.proxy, Checked(e.args[..i], Destroyed()) + e.args[i..])
        invariant forall p :: p in all ==> p.leaked + Times(p, RefList(e')) == old(p.leaked) + Times(p, RefList(e))
      {
        CheckedNext(e.args, Destroyed(), i);
        ArgumentKnown(e', i);
        if e'.args[i].Some? && e'.args[i].value.destroyed {
          Forget(e', i);
          e' := Event(e'.proxy, e'.args[i := None]);
        }
      }
      assert e.args[..|e.args|] == e.args && e.args[|e.args|..] == [];
    }

    lemma ArgumentKnown(e: Event, i: nat)
      requires Within(RefList(e), all) && i < |e.args|
      ensures e.args[i].Some? ==> e.args[i].value in all
    {
      assert RefList(e)[i] == e.args[i];
    }

    /** Argument i of a closure becomes NULL without being given back. */
    ghost method Forget(e: Event, i: nat)
      requires Counts() && Balanced(RefList(e)) && Within(RefList(e), all)
      requires i < |e.args| && e.args[i].Some? && e.args[i].value.destroyed
      modifies all`held, all`leaked
      ensures Counts() && Balanced(RefList(Event(e.proxy, e.args[i := None])))
      ensures Within(RefList(Event(e.proxy, e.args[i := None])), all)
      ensures forall p :: p in all ==>
                p.leaked + Times(p, RefList(Event(e.proxy, e.args[i := None]))) == old(p.leaked) + Times(p, RefList(e))
    {
      var p, refs := e.args[i].value, RefList(e);
      var refs' := RefList(Event(e.proxy, e.args[i := None]));
      assert refs[i] == Some(p) && refs' == refs[i := None];
      AllTimesNulled(p, refs, i);
      OwingForgotten(all, p, queued, dispatching, refs, i);
      assert p in all && p !in Miscounted() && Holding()[p] == p.held;
      p.held, p.leaked := p.held - 1, p.leaked + 1;
      assert Holding() == old(Holding())[p := p.held] && Miscounted() == old(Miscounted());
    }

    /** Closure k leaves its queue; its references are owed. */
    method TakeOut(k: nat) returns (e: Event)
      requires Valid() && k < |queued|
      modifies `queued
      ensures e == old(queued)[k] && queued == Without(old(queued), k)
      ensures Sound() && Balanced(RefList(e)) && Within(RefList(e), all)
      ensures KnownIn(all, queued) && KnownIn(all, dispatching) && Foreseen() && Marked()
      ensures LostIn(e) <= named + stale
    {
      e := queued[k];
      KnownWithout(all, queued, k);
      forall p | p in all ensures Held(p, queued) == Held(p, Without(queued, k)) + Times(p, RefList(e)) {
        HeldWithout(p, queued, k);
        assert Times(p, []) == 0;
      }
      NamedWithout(all, queued, k);
      BalancedEach([]);
      queued := Without(queued, k);
      BalancedEach(RefList(e));
    }

    /** A closure's arguments are checked just before its handler runs. */
    method Check(e: Event) returns (e': Event)
      requires Counts() && Balanced(RefList(e)) && Within(RefList(e), all) && Foreseen()
      requires LostIn(e) <= named + stale
      modifies all`held, all`leaked, `lost
      ensures Counts() && Balanced(RefList(e')) && Within(RefList(e'), all) && Foreseen()
      ensures e' == Event(e.proxy, Checked(e.args, Destroyed()))
      ensures lost == old(lost) + LostIn(e)
    {
      e' := ValidateClosureObjects(e);
      AllRefsChecked(e, Destroyed());
      assert Leaking() == old(Leaking()) + LostIn(e);
      lost := lost + LostIn(e);
    }

    /** dispatch_event up to the handler: closure k, the first of some queue, leaves it, and is
        dropped if its proxy was destroyed.  Either way the destroyed proxies among its
        arguments are lost. */
    method BeginDispatch(k: nat) returns (called: bool)
      requires Valid() && k < |queued|
      modifies `queued, `dispatching, `lost, all`refcount, all`freed, all`held, all`leaked
      ensures Valid() && queued == Without(old(queued), k) && called == !old(queued)[k].proxy.destroyed
      ensures lost == old(lost) + LostIn(old(queued)[k])
      ensures var e := old(queued)[k];
              dispatching == old(dispatching) + if called then [Event(e.proxy, Checked(e.args, Destroyed()))] else []
    {
      var e := TakeOut(k);
      called := CheckAndHandle(e);
    }

    method CheckAndHandle(e: Event) returns (called: bool)
      requires Sound() && Balanced(RefList(e)) && Within(RefList(e), all)
      requires KnownIn(all, queued) && KnownIn(all, dispatching) && Foreseen() && Marked() && LostIn(e) <= named + stale
      modifies `dispatching, `lost, all`refcount, all`freed, all`held, all`leaked
      ensures Valid() && called == !e.proxy.destroyed && lost == old(lost) + LostIn(e)
      ensures dispatching == old(dispatching) + if called then [Event(e.proxy, Checked(e.args, Destroyed()))] else []
    {
      var e' := Check(e);
      called := HandleOrDrop(e');
    }

    method HandleOrDrop(e: Event) returns (called: bool)
      requires Sound() && Balanced(RefList(e)) && Within(RefList(e), all)
      requires KnownIn(all, queued) && KnownIn(all, dispatching) && Foreseen() && Marked()
      modifies `dispatching, all`refcount, all`freed, all`held
      ensures Valid() && called == !e.proxy.destroyed
      ensures dispatching == old(dispatching) + if called then [e] else []
    {
      ProxyKnown(e);
      called := !e.proxy.destroyed;
      if called {
        Start(e);
      } else {
        DestroyQueuedClosure(e);
      }
    }

    /** The handler of a closure is about to run. */
    method Start(e: Event)
      requires Balanced(RefList(e)) && Within(RefList(e), all) && KnownIn(all, dispatching)
      modifies `dispatching
      ensures Balanced([]) && KnownIn(all, dispatching) && dispatching == old(dispatching) + [e]
    {
      forall p | p in all ensures Held(p, dispatching + [e]) == Held(p, dispatching) + Times(p, RefList(e)) {
        HeldParts(p, dispatching, [e]);
        HeldOne(p, e);
      }
      BalancedEach(RefList(e));
      dispatching := dispatching + [e];
      BalancedEach([]);
    }

    /** wl_event_queue_release, for one closure of the queue that is destroyed: its references
        are given back unseen. */
    method ReleaseClosure(k: nat)
      requires Valid() && k < |queued|
      modifies `queued, all`refcount, all`freed, all`held
      ensures Valid() && queued == Without(old(queued), k)
    {
      var e := TakeOut(k);
      DestroyQueuedClosure(e);
    }

    lemma ProxyKnown(e: Event)
      requires Within(RefList(e), all)
      ensures e.proxy in all
    {
      assert RefList(e)[|e.args|] == Some(e.proxy);
    }

    /** The end of dispatch_event, when the handler of closure k has returned. */
    method EndDispatch(k: nat)
      requires Valid() && k < |dispatching|
      modifies `dispatching, all`refcount, all`freed, all`held
      ensures Valid() && dispatching == Without(old(dispatching), k)
    {
      var e := dispatching[k];
      KnownWithout(all, dispatching, k);
      forall p | p in all ensures Held(p, dispatching) == Held(p, Without(dispatching, k)) + Times(p, RefList(e)) {
        HeldWithout(p, dispatching, k);
        assert Times(p, []) == 0;
      }
      BalancedEach([]);
      dispatching := Without(dispatching, k);
      BalancedEach(RefList(e));
      DestroyQueuedClosure(e);
    }

    /** The map will still lead to this proxy when it has been destroyed. */
    ghost predicate StaysMapped(p: Proxy)
      reads `objects, p`idDeleted
    {
      p.id in objects && objects[p.id] == p && p.idDeleted && !IsClientId(p.id)
    }

    /** proxy_destroy, by the application, which may do so once.  The map leads to the proxy
        afterwards if and only if it did before, its id is one of the server's, and a delete_id
        for it has been handled. */
    method DestroyProxy(p: Proxy)
      requires Valid() && p in all && !p.destroyed
      modifies `objects, `zombies, `named, `stale, p`destroyed, p`refcount, p`freed
      ensures Valid() && p.destroyed && objects == ObjectsAfter(old(objects), p.id, p.idDeleted)
      ensures (p.id in objects && objects[p.id] == p) <==> old(StaysMapped(p))
      ensures zombies == ZombiesAfter(old(zombies), p.id, p.idDeleted)
      ensures named == old(named) + {p} * NamedAmong(all, queued)
      ensures stale == old(stale) + (if old(StaysMapped(p)) then {p} else {})
    {
      LeadsAfter(objects, p, p.idDeleted);
      zombies := ZombiesAfter(zombies, p.id, p.idDeleted);
      Unmap(p);
      MarkDestroyed(p);
    }

    /** The map and the records are as they must be once p is destroyed. */
    ghost predicate ReadyToGo(p: Proxy)
      reads `objects, `all, `made, `queued, `named, `lost, `stale, all`destroyed, all`leaked
    {
      var gone := Destroyed() + {p};
      && all == Elements(made) && KeyedById(objects) && objects.Values <= all && objects.Values * gone <= stale
      && Leaking() == lost <= named + stale <= gone && gone * NamedAmong(all, queued) <= named + stale
    }

    /** What proxy_destroy does to the map, and what is recorded. */
    method Unmap(p: Proxy)
      requires Mapped() && Foreseen() && Marked() && p in all && !p.destroyed
      modifies `objects, `named, `stale
      ensures objects == ObjectsAfter(old(objects), p.id, p.idDeleted)
      ensures named == old(named) + {p} * NamedAmong(all, queued)
      ensures stale == old(stale) + (if old(StaysMapped(p)) then {p} else {})
      ensures Marked() && ReadyToGo(p)
    {
      LeadsAfter(objects, p, p.idDeleted);
      ghost var keptStale := stale + (if StaysMapped(p) then {p} else {});
      ghost var keptNamed := named + {p} * NamedAmong(all, queued);
      OneMoreGone(Destroyed(), p, objects.Values, ObjectsAfter(objects, p.id, p.idDeleted).Values, stale, keptStale);
      OneMoreNamed(Destroyed(), p, NamedAmong(all, queued), named, stale, keptStale);
      stale, named, objects := keptStale, keptNamed, ObjectsAfter(objects, p.id, p.idDeleted);
    }

    method MarkDestroyed(p: Proxy)
      requires Counts() && Marked() && p in all && !p.destroyed && ReadyToGo(p)
      requires Balanced([]) && KnownIn(all, queued) && KnownIn(all, dispatching)
      modifies p`destroyed, p`refcount, p`freed
      ensures Valid() && p.destroyed
    {
      CountsEach();
      assert p.Counted();
      p.destroyed := true;
      Unref(p);
      CountsEach();
      assert Destroyed() == old(Destroyed()) + {p};
    }

    /** display_handle_delete_id, which uses the memory of the proxy that the map leads to. */
    method HandleDeleteId(id: nat)
      requires Valid() && !broken
      modifies `zombies, `broken, all`idDeleted
      ensures Valid() && zombies == old(zombies) - {id}
      ensures broken <==> id !in old(zombies) && id in objects && objects[id].freed
      ensures forall p :: p in all ==>
                (p.idDeleted <==>
                   old(p.idDeleted) || (id !in old(zombies) && !broken && id in objects && objects[id] == p))
    {
      if id in zombies {
        zombies := zombies - {id};
      } else if id in objects {
        MapIsSafe(id);
        MarkDeleted(objects[id]);
      }
    }

    method MarkDeleted(p: Proxy)
      requires Marked() && !broken && p in all && (p.freed ==> p in stale)
      modifies `broken, p`idDeleted
      ensures Marked() && broken == p.freed && p.idDeleted == (old(p.idDeleted) || !p.freed)
    {
      if p.freed {
        broken := true;
      } else {
        p.idDeleted := true;
        assert old(ServerMarked()) <= ServerMarked();
      }
    }

    lemma UnknownIsNotHeld(p: Proxy, events: seq<Event>)
      requires KnownIn(all, events) && p !in all
      ensures Held(p, events) == 0
    {
      AbsentHeld(p, events);
    }

    /** proxy_create and wl_proxy_create_for_id. */
    method CreateProxy(id: nat, iface: string) returns (p: Proxy)
      requires Valid()
      modifies `objects, `made, `all
      ensures Valid() && fresh(p) && all == old(all) + {p} && objects == old(objects)[id := p]
      ensures p.id == id && p.iface == iface && !p.freed && !p.destroyed && !p.idDeleted
      ensures ServerMarked() == old(ServerMarked())
    {
      p := new Proxy(id, iface);
      UnknownIsNotHeld(p, queued);
      UnknownIsNotHeld(p, dispatching);
      Register(p);
    }

    /** A proxy that nothing refers to yet is entered in the map. */
    method Register(p: Proxy)
      requires Valid() && p !in all && p.Counted() && p.held == 0 && p.leaked == 0 && !p.destroyed
      requires Held(p, queued) == 0 && Held(p, dispatching) == 0 && !p.idDeleted
      modifies `objects, `made, `all
      ensures Valid() && all == old(all) + {p} && objects == old(objects)[p.id := p]
      ensures ServerMarked() == old(ServerMarked())
    {
      Enroll(p);
      EntersOne(objects, p);
      objects := objects[p.id := p];
    }

    method Enroll(p: Proxy)
      requires Valid() && p !in all && p.Counted() && p.held == 0 && p.leaked == 0 && !p.destroyed
      requires Held(p, queued) == 0 && Held(p, dispatching) == 0 && !p.idDeleted
      modifies `made, `all
      ensures Valid() && all == old(all) + {p} && ServerMarked() == old(ServerMarked())
    {
      NewIsNotNamed(all, p, queued);
      OwingNew(all, p, queued, dispatching);
      made := made + [p];
      all := all + {p};
      assert Holding() == old(Holding())[p := 0] && Miscounted() == old(Miscounted());
      assert Destroyed() == old(Destroyed()) && Leaking() == old(Leaking()) && ServerMarked() == old(ServerMarked());
    }

    /** create_proxies: a new proxy of its own for every new id among the arguments. */
    method CreateProxies(args: seq<ArgId>) returns (found: seq<Option<Proxy>>)
      requires Valid()
      modifies `objects, `made, `all
      ensures Valid() && |found| == |args| && fresh(all - old(all)) && old(all) <= all
      ensures objects == Entered(old(objects), args, found)
      ensures OwnProxies(args, found, old(all), all) && Live(found) && ServerMarked() == old(ServerMarked())
    {
      found := [];
      for i := 0 to |args|
        invariant Valid() && |found| == i && fresh(all - old(all)) && old(all) <= all
        invariant objects == Entered(old(objects), args, found)
        invariant OwnProxies(args, found, old(all), all) && Live(found) && ServerMarked() == old(ServerMarked())
      {
        found := CreateNext(args, found, old(objects), old(all));
      }
    }

    /** The next argument gets a proxy if it is a new id. */
    method CreateNext(args: seq<ArgId>, found: seq<Option<Proxy>>, ghost objects0: map<nat, Proxy>,
                      ghost before: set<Proxy>)
      returns (found': seq<Option<Proxy>>)
      requires Valid() && |found| < |args| && before <= all && objects == Entered(objects0, args, found)
      requires OwnProxies(args, found, before, all) && Live(found)
      modifies `objects, `made, `all
      ensures Valid() && |found'| == |found| + 1 && fresh(all - old(all)) && old(all) <= all
      ensures objects == Entered(objects0, args, found')
      ensures OwnProxies(args, found', before, all) && Live(found') && ServerMarked() == old(ServerMarked())
    {
      var r := CreateOne(args[|found|]);
      OwnProxiesNext(args, found, before, old(all), r);
      AmongAppend(found, r);
      found' := found + [r];
      assert found'[..|found|] == found;
    }

    /** The proxies among these exist and their memory does too. */
    ghost predicate Live(found: seq<Option<Proxy>>)
      reads `all, `stale, all`freed, all`destroyed
    {
      Reached(found) && Among(found) * Freed() == {}
    }

    /** These are proxies that were created, and those among them that are destroyed are stale. */
    ghost predicate Reached(found: seq<Option<Proxy>>)
      reads `all, `stale, all`destroyed
    {
      Among(found) <= all && Among(found) * Destroyed() <= stale
    }

    /** An argument gets a proxy if it is a new id. */
    method CreateOne(arg: ArgId) returns (r: Option<Proxy>)
      requires Valid()
      modifies `objects, `made, `all
      ensures Valid() && all == old(all) + (if r.Some? then {r.value} else {}) && (r.Some? <==> arg.NewId?)
      ensures ServerMarked() == old(ServerMarked())
      ensures objects == if r.Some? then old(objects)[arg.id := r.value] else old(objects)
      ensures r.Some? ==> fresh(r.value) && IsNew(r.value, arg) && !r.value.freed && !r.value.destroyed
    {
      r := None;
      if arg.NewId? {
        var p := CreateProxy(arg.id, arg.iface);
        r := Some(p);
      }
    }

    /** wl_closure_lookup_objects and the counting of references that follows: id 0 and the ids
        of zombies become NULL; an id that is not known, or not of the interface that the
        message names, is an error.  `touched` tells whether freed memory was used. */
    method LookupObjects(args: seq<ArgId>, created: seq<Option<Proxy>>)
      returns (found: seq<Option<Proxy>>, ok: bool, touched: bool)
      requires Valid() && |created| == |args| && Live(created)
      ensures touched <==> Touches(objects, zombies, Freed(), args)
      ensures !touched ==> (ok <==> AllResolve(objects, zombies, args))
      ensures !touched && ok ==> Live(found) && LookedUp(objects, zombies, args, created, found, |args|)
    {
      found, touched := created, false;
      ghost var freed := Freed();
      for i := 0 to |args|
        invariant AllResolve(objects, zombies, args[..i]) && Reached(found)
        invariant LookedUp(objects, zombies, args, created, found, i)
        invariant SomeDangles(objects, zombies, freed, args[..i]) <==> touched
        invariant forall j :: 0 <= j < i && Dangles(objects, zombies, freed, args[j]) ==> args[j].wanted.None?
      {
        var target, dangling;
        target, ok, dangling := LookupNext(args[i], created[i]);
        if dangling && args[i].ObjectId? && args[i].wanted.Some? {
          TouchesAt(objects, zombies, freed, args, i);
          return found, false, true;
        }
        if !ok {
          RefusedUntouched(objects, zombies, freed, args, i);
          return found, false, false;
        }
        DanglesNext(objects, zombies, freed, args, i);
        AmongUpdate(found, i, target);
        assert args[..i + 1] == args[..i] + [args[i]];
        touched := touched || dangling;
        found := found[i := target];
      }
      assert args[..|args|] == args;
      ok := true;
      AllTouched(objects, zombies, freed, args);
      if !touched {
        NoneFreed(objects, zombies, freed, args, created, found);
      }
    }

    /** Looks up one argument, unless it is a new object. */
    method LookupNext(arg: ArgId, created: Option<Proxy>) returns (target: Option<Proxy>, ok: bool, dangling: bool)
      requires Mapped()
      requires created.Some? ==> created.value in all && (created.value.destroyed ==> created.value in stale)
      ensures ok <==> Resolves(objects, zombies, arg)
      ensures dangling <==> Dangles(objects, zombies, Freed(), arg)
      ensures ok ==> target == if arg.NewId? then created else Target(objects, zombies, arg.id)
      ensures ok && target.Some? ==> target.value in all && (target.value.destroyed ==> target.value in stale)
    {
      target, ok, dangling := created, true, false;
      if arg.ObjectId? {
        target, ok := LookupObject(arg);
        dangling := arg.id !in zombies && arg.id in objects && objects[arg.id].freed;
        assert arg.id in objects ==> objects[arg.id] in objects.Values;
      }
    }

    method LookupObject(arg: ArgId) returns (target: Option<Proxy>, ok: bool)
      requires arg.ObjectId?
      ensures ok <==> Resolves(objects, zombies, arg)
      ensures ok ==> target == Target(objects, zombies, arg.id)
    {
      target := None;
      if arg.id !in zombies {
        if arg.id in objects {
          target := Some(objects[arg.id]);
        } else if arg.id != 0 {
          return target, false;
        }
      }
      ok := arg.id == 0 || target.None? || arg.wanted.None? || target.value.iface == arg.wanted.value;
    }

    /** queue_event, for an event on the object id with these object arguments.  Events for
        zombies and unknown ids are discarded; a new id that is taken, or an unknown object or
        one of another interface, is an error.  If the map leads from the sender or from an
        argument that is looked at to a proxy whose memory is gone, that memory is used. */
    method QueueEvent(id: nat, args: seq<ArgId>) returns (fate: Fate, ghost e: Option<Event>)
      requires Valid() && !broken
      modifies `objects, `made, `all, `queued, `broken, all`refcount, all`held
      ensures Valid() && fresh(all - old(all)) && old(all) <= all && ServerMarked() == old(ServerMarked())
      ensures broken == fate.Undefined? && (e.Some? <==> fate.Queued?)
      ensures fate.Discarded? <==> id in zombies || id !in old(objects)
      ensures fate.Undefined? <==>
                !fate.Discarded? && (old(objects)[id].freed || (!NewIdRefused(old(objects), zombies, args)
                                                                && Touches(objects, zombies, Freed(), args)))
      ensures fate.Refused? <==>
                !fate.Discarded? && !fate.Undefined? && (NewIdRefused(old(objects), zombies, args) ||
                                                         !AllResolve(objects, zombies, args))
      ensures queued == old(queued) + if e.Some? then [e.value] else []
      ensures e.Some? ==> e.value.proxy == old(objects)[id] && Linked(args, e.value.args, old(all), objects, zombies)
                          && Follows(old(objects), args, e.value.args, objects)
      ensures KeepsOthers(old(objects), args, objects)
    {
      e := None;
      if id in zombies || id !in objects {
        return Discarded, None;
      }
      MapIsSafe(id);
      if objects[id].freed {
        broken := true;
        return Undefined, None;
      }
      var taken := NewIdTaken(args);
      if taken {
        return Refused, None;
      }
      fate, e := LinkAndQueue(objects[id], args);
    }

    /** The part of queue_event that changes the client. */
    method LinkAndQueue(proxy: Proxy, args: seq<ArgId>) returns (fate: Fate, ghost e: Option<Event>)
      requires Valid() && !broken && proxy in all && !proxy.freed
      modifies `objects, `made, `all, `queued, `broken, all`refcount, all`held
      ensures Valid() && fresh(all - old(all)) && old(all) <= all && ServerMarked() == old(ServerMarked())
      ensures broken == fate.Undefined? && (e.Some? <==> fate.Queued?) && !fate.Discarded?
      ensures fate.Undefined? <==> Touches(objects, zombies, Freed(), args)
      ensures fate.Refused? <==> !fate.Undefined? && !AllResolve(objects, zombies, args)
      ensures queued == old(queued) + if e.Some? then [e.value] else []
      ensures e.Some? ==> e.value.proxy == proxy && Linked(args, e.value.args, old(all), objects, zombies)
                          && Follows(old(objects), args, e.value.args, objects)
      ensures KeepsOthers(old(objects), args, objects)
    {
      var created := CreateProxies(args);
      ghost var before := old(all);
      fate, e := LookUpAndQueue(proxy, args, created);
      EnteredLast(old(objects), args, created);
      if e.Some? {
        LinkedNew(args, created, e.value.args, before, all, objects, zombies);
        FollowsFound(old(objects), args, created, e.value.args, objects);
      }
    }

    method LookUpAndQueue(proxy: Proxy, args: seq<ArgId>, created: seq<Option<Proxy>>)
      returns (fate: Fate, ghost e: Option<Event>)
      requires Valid() && !broken && proxy in all && !proxy.freed
      requires |created| == |args| && Live(created)
      modifies `queued, `broken, all`refcount, all`held
      ensures Valid() && broken == fate.Undefined? && (e.Some? <==> fate.Queued?) && !fate.Discarded?
      ensures fate.Undefined? <==> Touches(objects, zombies, Freed(), args)
      ensures fate.Refused? <==> !fate.Undefined? && !AllResolve(objects, zombies, args)
      ensures queued == old(queued) + if e.Some? then [e.value] else []
      ensures e.Some? ==> e.value.proxy == proxy
                          && LookedUp(objects, zombies, args, created, e.value.args, |args|)
    {
      var found, ok, touched := LookupObjects(args, created);
      if touched {
        TouchedIsStale(args);
        broken := true;
        return Undefined, None;
      }
      e := QueueIfFound(proxy, found, ok);
      fate := if ok then Queued else Refused;
    }

    method QueueIfFound(proxy: Proxy, found: seq<Option<Proxy>>, ok: bool) returns (ghost e: Option<Event>)
      requires Valid() && proxy in all && !proxy.freed && (ok ==> Live(found))
      modifies `queued, all`refcount, all`held
      ensures Valid() && e == (if ok then Some(Event(proxy, found)) else None)
      ensures queued == old(queued) + if ok then [e.value] else []
    {
      e := if ok then Some(Event(proxy, found)) else None;
      if ok {
        Enqueue(Event(proxy, found));
      }
    }

    /** Freed memory is reached only through a stale proxy. */
    lemma TouchedIsStale(args: seq<ArgId>)
      requires Valid() && Touches(objects, zombies, Freed(), args)
      ensures stale != {}
    {
      var i :| 0 <= i < |args| && Dangles(objects, zombies, Freed(), args[i]);
      MapIsSafe(args[i].id);
    }

    /** The demarshaller refuses a new id that is the client's own or in use. */
    method NewIdTaken(args: seq<ArgId>) returns (taken: bool)
      ensures taken <==> NewIdRefused(objects, zombies, args)
    {
      taken := false;
      for i := 0 to |args|
        invariant taken <==> exists j :: 0 <= j < i && Unavailable(objects, zombies, args[j])
      {
        if args[i].NewId? && (IsClientId(args[i].id) || args[i].id in objects || args[i].id in zombies) {
          assert Unavailable(objects, zombies, args[i]);
          taken := true;
        }
      }
    }

    /** No closure refers to a freed proxy. */
    lemma NoDangling(events: seq<Event>, k: nat, i: nat)
      requires Valid() && (events == queued || events == dispatching)
      requires k < |events| && i < |RefList(events[k])| && RefList(events[k])[i].Some?
      ensures var p := RefList(events[k])[i].value; p in all && !p.freed && p.refcount > 0
    {
      var p := RefList(events[k])[i].value;
      assert Within(RefList(events[k]), all);
      MentionedIsCounted(p, RefList(events[k]), i);
      EventIsCounted(p, events, k);
      BalancedEach([]);
      CountsEach();
      assert p.Counted() && Times(p, []) == 0;
    }

    lemma NoDanglingIn(events: seq<Event>)
      requires Valid() && (events == queued || events == dispatching)
      ensures NoneDangle(events)
    {
      forall k, i | 0 <= k < |events| && 0 <= i < |RefList(events[k])| && RefList(events[k])[i].Some?
        ensures !RefList(events[k])[i].value.freed
      {
        NoDangling(events, k, i);
      }
    }

    /** A proxy the application has destroyed is freed as soon as no closure refers to it, if
        and only if no closure that named it was dispatched since; which takes a closure that
        was queued when it was destroyed, or that the map still led to it. */
    lemma FreedUnlessLost(p: Proxy)
      requires Valid() && p in all
      ensures p.freed <==> p.destroyed && Held(p, queued) == 0 && Held(p, dispatching) == 0 && p !in lost
      ensures p in lost ==> p in named || p in stale
    {
      BalancedEach([]);
      CountsEach();
      assert p.Counted() && Times(p, []) == 0;
    }

    lemma LiveIsNotLost(p: Proxy)
      requires Valid() && p in all && !p.destroyed
      ensures p !in lost && !p.freed
    {
      CountsEach();
      assert p.Counted();
    }

    /** The map leads to destroyed proxies only if they are stale, and to freed ones only if
        they are. */
    lemma MapIsSafe(id: nat)
      requires Valid() && id in objects
      ensures objects[id] in all && (objects[id].destroyed ==> objects[id] in stale)
      ensures objects[id].freed ==> objects[id].destroyed
      ensures objects[id] !in stale ==> objects[id].refcount > 0
    {
      CountsEach();
      assert objects[id] in objects.Values && objects[id].Counted();
    }

  }

  /** Steps of the threads of a client and of the events it receives.  The application may
      destroy any proxy that was created; closures may be the first of different queues. */
  datatype Action =
    | Create(id: nat, iface: string)
    | Destroy(i: nat)
    | Receive(id: nat, args: seq<ArgId>)
    | Begin(k: nat)
    | Release(k: nat)
    | End(k: nat)
    | DeleteId(id: nat)

  /** A delete_id names one of the client's ids, as those of the library's server do. */
  predicate ClientDeletion(a: Action) {
    a.DeleteId? ==> IsClientId(a.id)
  }

  /** What a step keeps: what was lost stays lost; and of a destroyed proxy it does not change
      whether it was named or stale when it was destroyed. */
  twostate predicate Kept(c: Client)
    reads c, c.all
  {
    && old(c.all) <= c.all && fresh(c.all - old(c.all)) && old(c.lost) <= c.lost
    && forall p :: p in old(c.all) && old(p.destroyed) ==>
         p.destroyed && (p in c.named <==> p in old(c.named)) && (p in c.stale <==> p in old(c.stale))
  }

  method PerformDestroy(c: Client, p: Proxy)
    requires c.Valid() && p in c.made && !p.destroyed
    modifies c, c.all
    ensures c.Valid() && Kept(c) && c.broken == old(c.broken)
    ensures old(c.ServerMarked()) == {} ==> c.ServerMarked() == {} && c.stale == old(c.stale)
  {
    c.DestroyProxy(p);
  }

  method PerformReceive(c: Client, id: nat, args: seq<ArgId>)
    requires c.Valid() && !c.broken
    modifies c, c.all
    ensures c.Valid() && Kept(c) && c.ServerMarked() == old(c.ServerMarked()) && c.stale == old(c.stale)
  {
    ghost var e;
    var fate;
    fate, e := c.QueueEvent(id, args);
  }

  method PerformDeletion(c: Client, id: nat)
    requires c.Valid() && !c.broken
    modifies c, c.all
    ensures c.Valid() && Kept(c) && c.stale == old(c.stale)
    ensures IsClientId(id) ==> c.ServerMarked() == old(c.ServerMarked())
  {
    c.HandleDeleteId(id);
  }

  /** Performs a step; once freed memory was used there are none. */
  method Perform(c: Client, a: Action)
    requires c.Valid()
    modifies c, c.all
    ensures c.Valid() && Kept(c)
    ensures old(c.ServerMarked()) == {} && ClientDeletion(a) ==> c.ServerMarked() == {} && c.stale == old(c.stale)
  {
    if c.broken {
      return;
    }
    match a
    case Create(id, iface) =>
      if IsClientId(id) && id !in c.objects && id !in c.zombies {
        var p := c.CreateProxy(id, iface);
      }
    case Destroy(i) =>
      if i < |c.made| && !c.made[i].destroyed {
        PerformDestroy(c, c.made[i]);
      }
    case Receive(id, args) =>
      PerformReceive(c, id, args);
    case Begin(k) =>
      if k < |c.queued| {
        var called := c.BeginDispatch(k);
      }
    case Release(k) =>
      if k < |c.queued| {
        c.ReleaseClosure(k);
      }
    case End(k) =>
      if k < |c.dispatching| {
        c.EndDispatch(k);
      }
    case DeleteId(id) =>
      PerformDeletion(c, id);
  }

  predicate ClientDeletions(actions: seq<Action>) {
    forall n :: 0 <= n < |actions| ==> ClientDeletion(actions[n])
  }

  /** Any steps from here on. */
  method Continue(c: Client, actions: seq<Action>)
    requires c.Valid()
    modifies c, c.all
    ensures c.Valid() && Kept(c)
    ensures old(c.ServerMarked()) == {} && ClientDeletions(actions) ==>
              c.ServerMarked() == {} && c.stale == old(c.stale)
  {
    for n := 0 to |actions|
      invariant c.Valid() && Kept(c)
      invariant old(c.ServerMarked()) == {} && ClientDeletions(actions) ==>
        c.ServerMarked() == {} && c.stale == old(c.stale)
    {
      Perform(c, actions[n]);
    }
  }

  /** The references of these closures lead to proxies whose memory is there. */
  ghost predicate NoneDangle(events: seq<Event>)
    reads set k, r | 0 <= k < |events| && r in RefList(events[k]) && r.Some? :: r.value
  {
    forall k, i :: 0 <= k < |events| && 0 <= i < |RefList(events[k])| && RefList(events[k])[i].Some? ==>
      !RefList(events[k])[i].value.freed
  }

  /** In every run, handlers see only proxies whose memory is not freed; and if every delete_id
      names one of the client's ids, then no freed memory is ever used, and the map leads to no
      destroyed proxy. */
  method Run(actions: seq<Action>) returns (c: Client)
    ensures fresh(c) && c.Valid() && NoneDangle(c.queued) && NoneDangle(c.dispatching)
    ensures ClientDeletions(actions) ==>
              c.stale == {} && !c.broken && forall id :: id in c.objects ==> !c.objects[id].destroyed
  {
    c := new Client();
    Continue(c, actions);
    c.NoDanglingIn(c.queued);
    c.NoDanglingIn(c.dispatching);
    if ClientDeletions(actions) {
      forall id | id in c.objects ensures !c.objects[id].destroyed {
        c.MapIsSafe(id);
      }
    }
  }

  /** A proxy that no queued closure names when it is destroyed, and to which the map does not
      lead any more, is freed, whatever happens afterwards, as soon as no closure refers to it. */
  method UnnamedIsFreed(c: Client, p: Proxy, actions: seq<Action>)
    requires c.Valid() && p in c.all && !p.destroyed && !NamedIn(p, c.queued)
    modifies c, c.all
    ensures c.Valid()
    ensures !old(c.StaysMapped(p)) ==> (p.freed <==> Held(p, c.queued) == 0 && Held(p, c.dispatching) == 0)
  {
    c.DestroyProxy(p);
    Continue(c, actions);
    c.FreedUnlessLost(p);
  }

  method DispatchNamed(c: Client, p: Proxy, k: nat)
    requires c.Valid() && p in c.all && p.destroyed && k < |c.queued| && Some(p) in c.queued[k].args
    modifies c, c.all
    ensures c.Valid() && c.all == old(c.all) && p.destroyed && p in c.lost && p in c.named + c.stale
    ensures c.named == old(c.named) && c.stale == old(c.stale)
  {
    var called := c.BeginDispatch(k);
  }

  /** If a queued closure names it, and that closure or another one that names it is still
      queued later and then dispatched, it is never freed, whatever happens in between and
      afterwards. */
  method NamedIsLost(c: Client, p: Proxy, before: seq<Action>, k: nat, after: seq<Action>) returns (dispatched: bool)
    requires c.Valid() && p in c.all && !p.destroyed
    modifies c, c.all
    ensures c.Valid() && (dispatched ==> !p.freed)
    ensures dispatched ==> old(NamedIn(p, c.queued)) || old(c.StaysMapped(p))
  {
    c.DestroyProxy(p);
    Continue(c, before);
    dispatched := !c.broken && k < |c.queued| && Some(p) in c.queued[k].args;
    if dispatched {
      DispatchNamed(c, p, k);
      Continue(c, after);
      c.FreedUnlessLost(p);
    }
  }

  /** From any state in which a live proxy of a server id is in use by no closure: if the server
      announces that the id is deleted, and the application destroys the proxy, then its memory
      is freed although the map leads to it, and the next event for the id, or the next
      delete_id, uses that memory. */
  method StaleEntryIsUsed(c: Client, p: Proxy, byEvent: bool)
    requires c.Valid() && !c.broken && p.id in c.objects && c.objects[p.id] == p && !p.destroyed
    requires !IsClientId(p.id) && p.id !in c.zombies && Held(p, c.queued) == 0 && Held(p, c.dispatching) == 0
    modifies c, c.all
    ensures c.Valid() && p.freed && c.broken
  {
    MakeStale(c, p);
    if byEvent {
      ghost var e;
      var fate;
      fate, e := c.QueueEvent(p.id, []);
    } else {
      c.HandleDeleteId(p.id);
    }
  }

  method MakeStale(c: Client, p: Proxy)
    requires c.Valid() && !c.broken && p.id in c.objects && c.objects[p.id] == p && !p.destroyed
    requires !IsClientId(p.id) && p.id !in c.zombies && Held(p, c.queued) == 0 && Held(p, c.dispatching) == 0
    modifies c, c.all
    ensures c.Valid() && !c.broken && p in c.all && p.freed && p.id in c.objects && c.objects[p.id] == p
    ensures p.id !in c.zombies && c.all == old(c.all)
  {
    c.MapIsSafe(p.id);
    c.LiveIsNotLost(p);
    c.HandleDeleteId(p.id);
    c.DestroyProxy(p);
    c.FreedUnlessLost(p);
  }

  /** Such a state can be reached: the server announces an object, and the event is handled. */
  method ServerObject() returns (c: Client, p: Proxy)
    ensures fresh(c) && fresh(c.all) && c.Valid() && !c.broken && c.zombies == {} && p in c.all && !p.destroyed
    ensures p.id == SERVER_ID_START && p.id in c.objects && c.objects[p.id] == p
    ensures c.queued == [] && c.dispatching == []
  {
    var sender;
    c, sender, p := AnnouncedObject();
    HandleOnly(c, sender);
  }

  method AnnouncedObject() returns (c: Client, sender: Proxy, p: Proxy)
    ensures fresh(c) && fresh(c.all) && c.Valid() && !c.broken && c.zombies == {} && c.dispatching == []
    ensures p in c.all && !p.destroyed && p.id == SERVER_ID_START && p.id in c.objects && c.objects[p.id] == p
    ensures |c.queued| == 1 && c.queued[0].proxy == sender && !sender.destroyed
  {
    c := new Client();
    sender := c.CreateProxy(1, "");
    p := Announce(c, sender);
  }

  /** An event of the only proxy announces an object, the first one of the server. */
  method Announce(c: Client, sender: Proxy) returns (p: Proxy)
    requires c.Valid() && !c.broken && c.objects == map[1 := sender] && c.zombies == {} && c.queued == []
    requires sender in c.all && !sender.destroyed
    modifies c, c.all
    ensures c.Valid() && !c.broken && fresh(c.all - old(c.all)) && c.zombies == {} && !sender.destroyed
    ensures c.dispatching == old(c.dispatching) && |c.queued| == 1 && c.queued[0].proxy == sender
    ensures p in c.all && !p.destroyed && p.id == SERVER_ID_START && p.id in c.objects && c.objects[p.id] == p
  {
    c.LiveIsNotLost(sender);
    var args := [NewId(SERVER_ID_START, "")];
    AnnouncesOne(c.objects, args);
    ghost var e;
    var fate;
    fate, e := c.QueueEvent(1, args);
    assert c.stale == old(c.stale) <= old(c.all) && args[0].NewId?;
    assert fate.Queued?;
    p := c.objects[SERVER_ID_START];
    assert p == e.value.args[0].value && p !in old(c.all);
    c.MapIsSafe(p.id);
  }

  lemma AnnouncesOne(objects: map<nat, Proxy>, args: seq<ArgId>)
    requires objects.Keys == {1} && args == [NewId(SERVER_ID_START, "")]
    ensures !NewIdRefused(objects, {}, args) && !NamedLater(args, 0, 1) && !Creates(args, 1)
    ensures forall o, z :: AllResolve(o, z, args)
    ensures forall o, z, f :: !Touches(o, z, f, args)
  {
  }

  method HandleOnly(c: Client, sender: Proxy)
    requires c.Valid() && !c.broken && |c.queued| == 1 && c.queued[0].proxy == sender && !sender.destroyed
    requires c.dispatching == []
    modifies c`queued, c`dispatching, c`lost, c.all`refcount, c.all`freed, c.all`held, c.all`leaked
    ensures c.Valid() && c.queued == [] && c.dispatching == []
  {
    var called := c.BeginDispatch(0);
    c.EndDispatch(0);
  }

  /** A run that uses freed memory. */
  method FreedMemoryIsUsed() returns (c: Client)
    ensures c.Valid() && c.broken
  {
    var p;
    c, p := ServerObject();
    StaleEntryIsUsed(c, p, true);
  }

  /** A client with the proxies 1 and 2. */
  method TwoProxies() returns (c: Client, sender: Proxy, p: Proxy)
    ensures fresh(c) && fresh(c.all) && c.Valid() && !c.broken && p in c.all && sender in c.all && p != sender
    ensures c.objects == map[1 := sender, 2 := p] && c.zombies == {} && c.queued == [] && c.dispatching == []
    ensures !p.destroyed && !sender.destroyed
  {
    c := new Client();
    sender := c.CreateProxy(1, "");
    p := c.CreateProxy(2, "");
  }

  /** An event for proxy 1 that mentions proxy 2 is queued. */
  method Mention(c: Client, sender: Proxy, p: Proxy)
    requires c.Valid() && !c.broken && c.objects == map[1 := sender, 2 := p] && c.zombies == {} && c.queued == []
    requires sender in c.all && !sender.destroyed && p in c.all && !p.destroyed
    modifies c, c.all`refcount, c.all`held
    ensures c.Valid() && c.all == old(c.all) && c.queued == [Event(sender, [Some(p)])]
    ensures c.dispatching == old(c.dispatching)
  {
    c.LiveIsNotLost(sender);
    c.LiveIsNotLost(p);
    var args := [ObjectId(2, None)];
    MentionsOne(c.objects, c.Freed(), args);
    ghost var e;
    var fate;
    fate, e := c.LookUpAndQueue(sender, args, [None]);
    assert e.value.args == [Some(p)];
  }

  lemma MentionsOne(objects: map<nat, Proxy>, freed: set<Proxy>, args: seq<ArgId>)
    requires args == [ObjectId(2, None)] && 2 in objects && objects[2] !in freed
    ensures AllResolve(objects, {}, args) && !Touches(objects, {}, freed, args)
  {
  }

  /** References can be leaked: proxy 2 is an argument of a queued event for proxy 1 when the
      application destroys it, and stays in memory after the event has been handled. */
  method LeakedProxy() returns (c: Client, p: Proxy)
    ensures c.Valid() && p in c.all && c.queued == [] && c.dispatching == []
    ensures p.destroyed && p in c.lost && !p.freed
  {
    var sender;
    c, sender, p := TwoProxies();
    Mention(c, sender, p);
    c.DestroyProxy(p);
    HandleMention(c, sender, p);
    c.FreedUnlessLost(p);
  }

  method HandleMention(c: Client, sender: Proxy, p: Proxy)
    requires c.Valid() && c.queued == [Event(sender, [Some(p)])] && c.dispatching == []
    requires p in c.all && p.destroyed && !sender.destroyed
    modifies c, c.all
    ensures c.Valid() && c.all == old(c.all) && c.queued == [] && c.dispatching == [] && p.destroyed && p in c.lost
  {
    assert c.queued[0].args[0] == Some(p);
    var called := c.BeginDispatch(0);
    c.EndDispatch(0);
  }
}
