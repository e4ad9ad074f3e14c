/** Globals and the registries that announce them.  Clients connect and ask for registries
    at any time, so what a registry was told is compared with the globals there are. */
module Registries {
  type Name = nat
  type ClientId = nat

  datatype Notice = Announced(name: Name) | Withdrawn(name: Name)

  /** The names a client knows after these notices. */
  function Known(log: seq<Notice>): (names: set<Name>) {
    if log == [] then {}
    else
      var last := log[|log| - 1];
      if last.Announced? then Known(log[..|log| - 1]) + {last.name} else Known(log[..|log| - 1]) - {last.name}
  }

  /** Every name is announced at most once, and withdrawn at most once and only after that. */
  predicate Orderly(log: seq<Notice>) {
    forall i :: 0 <= i < |log| ==>
      if log[i].Announced? then forall j :: 0 <= j < i ==> log[j].name != log[i].name
      else (exists j :: 0 <= j < i && log[j] == Announced(log[i].name))
           && forall j :: 0 <= j < i ==> log[j] != Withdrawn(log[i].name)
  }

  predicate Below(log: seq<Notice>, n: nat) {
    forall i :: 0 <= i < |log| ==> log[i].name < n
  }

  lemma KnownNext(log: seq<Notice>, e: Notice)
    ensures Known(log + [e]) == if e.Announced? then Known(log) + {e.name} else Known(log) - {e.name}
  {
    assert (log + [e])[..|log|] == log;
  }

  lemma {:induction false} KnownWasAnnounced(log: seq<Notice>, n: Name)
    requires n in Known(log)
    ensures exists j :: 0 <= j < |log| && log[j] == Announced(n)
    decreases |log|
  {
    var front, last := log[..|log| - 1], log[|log| - 1];
    if last != Announced(n) {
      KnownWasAnnounced(front, n);
      var j :| 0 <= j < |front| && front[j] == Announced(n);
      assert log[j] == Announced(n);
    }
  }

  /** In an orderly log, a name that is known was not withdrawn before. */
  lemma {:induction false} KnownNotWithdrawn(log: seq<Notice>, n: Name)
    requires Orderly(log) && n in Known(log)
    ensures forall j :: 0 <= j < |log| ==> log[j] != Withdrawn(n)
    decreases |log|
  {
    var front, last := log[..|log| - 1], log[|log| - 1];
    assert forall i :: 0 <= i < |front| ==> front[i] == log[i];
    if last == Announced(n) {
      forall j | 0 <= j < |log| ensures log[j] != Withdrawn(n) {
        if j < |log| - 1 {
          assert log[j].name != last.name;
        }
      }
    } else {
      KnownNotWithdrawn(front, n);
      forall j | 0 <= j < |log| ensures log[j] != Withdrawn(n) {
        if j < |log| - 1 {
          assert front[j] == log[j];
        }
      }
    }
  }

  /** A new name is announced. */
  lemma AnnounceOrderly(log: seq<Notice>, n: Name)
    requires Orderly(log) && forall j :: 0 <= j < |log| ==> log[j].name != n
    ensures Orderly(log + [Announced(n)])
  {
    var log' := log + [Announced(n)];
    forall i | 0 <= i < |log'|
      ensures if log'[i].Announced? then forall j :: 0 <= j < i ==> log'[j].name != log'[i].name
              else (exists j :: 0 <= j < i && log'[j] == Announced(log'[i].name))
                   && forall j :: 0 <= j < i ==> log'[j] != Withdrawn(log'[i].name)
    {
      if i < |log| && log[i].Withdrawn? {
        var j :| 0 <= j < i && log[j] == Announced(log[i].name);
        assert log'[j] == Announced(log'[i].name);
      }
    }
  }

  /** A known name is withdrawn. */
  lemma WithdrawOrderly(log: seq<Notice>, n: Name)
    requires Orderly(log) && n in Known(log)
    ensures Orderly(log + [Withdrawn(n)])
  {
    var log' := log + [Withdrawn(n)];
    KnownWasAnnounced(log, n);
    KnownNotWithdrawn(log, n);
    forall i | 0 <= i < |log'|
      ensures if log'[i].Announced? then forall j :: 0 <= j < i ==> log'[j].name != log'[i].name
              else (exists j :: 0 <= j < i && log'[j] == Announced(log'[i].name))
                   && forall j :: 0 <= j < i ==> log'[j] != Withdrawn(log'[i].name)
    {
      if i < |log| && log[i].Withdrawn? {
        var j :| 0 <= j < i && log[j] == Announced(log[i].name);
        assert log'[j] == Announced(log'[i].name);
      } else if i == |log| {
        var j :| 0 <= j < |log| && log[j] == Announced(n);
        assert log'[j] == Announced(n);
      }
    }
  }

  /** All notices name some of these. */
  predicate NamesAmong(log: seq<Notice>, names: set<Name>) {
    forall i :: 0 <= i < |log| ==> log[i].name in names
  }

  /** A name that no notice has named is announced. */
  lemma NewlyAnnounced(log: seq<Notice>, names: set<Name>, n: Name, next: nat)
    requires Orderly(log) && Below(log, next) && NamesAmong(log, names) && n !in names && n < next
    ensures var log' := log + [Announced(n)];
            Orderly(log') && Below(log', next) && NamesAmong(log', names + {n}) && Known(log') == Known(log) + {n}
  {
    KnownNext(log, Announced(n));
    AnnounceOrderly(log, n);
  }

  class Global {
    const name: Name
    const iface: string
    const version: int
    var removed: bool

    constructor (name: Name, iface: string, version: int)
      ensures this.name == name && this.iface == iface && this.version == version && !removed
    {
      this.name, this.iface, this.version, removed := name, iface, version, false;
    }
  }

  /** A registry resource, with the events posted to it. */
  class Registry {
    const client: ClientId
    var log: seq<Notice>

    constructor (client: ClientId)
      ensures this.client == client && log == []
    {
      this.client, log := client, [];
    }
  }

  /** The registry was told exactly of the active globals that its client may see, each of
      them once. */
  ghost predicate Agrees(r: Registry, active: set<Name>, filter: (ClientId, Name) -> bool, next: nat)
    reads r
  {
    && Orderly(r.log) && Below(r.log, next)
    && Known(r.log) == set n | n in active && filter(r.client, n)
  }

  /** What is left without entry k. */
  lemma WithoutOne<T>(s: seq<T>, k: nat)
    requires k < |s| && forall i, j :: 0 <= i < j < |s| ==> s[i] != s[j]
    ensures forall x :: x in s[..k] + s[k + 1..] <==> x in s && x != s[k]
  {
    var rest := s[..k] + s[k + 1..];
    forall x | x in rest ensures x in s && x != s[k] {
      var i :| 0 <= i < |rest| && rest[i] == x;
      assert s[if i < k then i else i + 1] == x;
    }
    forall x | x in s && x != s[k] ensures x in rest {
      var i :| 0 <= i < |s| && s[i] == x;
      assert rest[if i < k then i else i - 1] == x;
    }
  }

  class Display {
    const filter: (ClientId, Name) -> bool
    var id: nat
    var globals: seq<Global>
    var registries: seq<Registry>
    ghost var active: set<Name>   // the names of the globals that are not removed

    ghost predicate Valid()
      reads this, globals, registries
    {
      && GlobalsValid()
      && (forall i, j :: 0 <= i < j < |registries| ==> registries[i] != registries[j])
      && (forall r :: r in registries ==> Agrees(r, active, filter, id))
    }

    ghost predicate GlobalsValid()
      reads `id, `globals, `active, globals
    {
      && (forall i, j :: 0 <= i < j < |globals| ==> globals[i].name != globals[j].name)
      && (forall g :: g in globals ==> g.name < id && (g.name in active <==> !g.removed))
      && (forall n :: n in active ==> exists g :: g in globals && g.name == n)
    }

    constructor (filter: (ClientId, Name) -> bool)
      ensures Valid() && globals == [] && registries == [] && active == {} && this.filter == filter
    {
      this.filter := filter;
      id, globals, registries, active := 1, [], [], {};
    }

    /** One registry is told of a new global. */
    method Tell(r: Registry, name: Name, ghost before: set<Name>)
      requires Agrees(r, before, filter, name)
      modifies r
      ensures Agrees(r, before + {name}, filter, name + 1)
    {
      if filter(r.client, name) {
        KnownNext(r.log, Announced(name));
        AnnounceOrderly(r.log, name);
        r.log := r.log + [Announced(name)];
      }
    }

    /** All registries are told of a new global. */
    method TellAll(name: Name, ghost before: set<Name>)
      requires forall i, j :: 0 <= i < j < |registries| ==> registries[i] != registries[j]
      requires forall r :: r in registries ==> Agrees(r, before, filter, name)
      modifies set r | r in registries
      ensures forall r :: r in registries ==> Agrees(r, before + {name}, filter, name + 1)
    {
      for i := 0 to |registries|
        invariant forall j :: 0 <= j < i ==> Agrees(registries[j], before + {name}, filter, name + 1)
        invariant forall j :: i <= j < |registries| ==> Agrees(registries[j], before, filter, name)
      {
        Tell(registries[i], name, before);
      }
    }

    /** wl_global_create: every registry whose client may see the global is told. */
    method CreateGlobal(iface: string, version: int, interfaceVersion: int) returns (g: Global?)
      requires Valid()
      modifies `id, `globals, `active, set r | r in registries
      ensures Valid()
      ensures g == null <==> version < 1 || version > interfaceVersion
      ensures g == null ==> globals == old(globals) && active == old(active)
      ensures g != null ==>
                && fresh(g) && !g.removed && g.name == old(id) && id == old(id) + 1
                && g.iface == iface && g.version == version
                && globals == old(globals) + [g] && active == old(active) + {g.name}
    {
      if version < 1 || version > interfaceVersion {
        return null;
      }
      var global := AddGlobal(iface, version);
      TellAll(global.name, active - {global.name});
      assert active - {global.name} + {global.name} == active;
      return global;
    }

    method AddGlobal(iface: string, version: int) returns (g: Global)
      requires GlobalsValid()
      modifies `id, `globals, `active
      ensures g.iface == iface && g.version == version
      ensures GlobalsValid() && fresh(g) && !g.removed && g.name == old(id) && id == old(id) + 1
      ensures globals == old(globals) + [g] && active == old(active) + {g.name} && g.name !in old(active)
    {
      g := new Global(id, iface, version);
      assert g.name !in active;
      id := id + 1;
      globals := globals + [g];
      active := active + {g.name};
      forall n | n in active ensures exists h :: h in globals && h.name == n {
        if n in old(active) {
          var h :| h in old(globals) && h.name == n;
          assert h in globals;
        } else {
          assert g in globals;
        }
      }
    }

    /** One registry is told that a global is gone. */
    method Retract(r: Registry, name: Name)
      requires Agrees(r, active, filter, id) && name in active && name < id
      modifies r
      ensures Agrees(r, active - {name}, filter, id)
    {
      if filter(r.client, name) {
        KnownNext(r.log, Withdrawn(name));
        WithdrawOrderly(r.log, name);
        r.log := r.log + [Withdrawn(name)];
      }
    }

    /** wl_global_remove, which may be called once for a global. */
    method RemoveGlobal(g: Global)
      requires Valid() && g in globals && !g.removed
      modifies g, `active, set r | r in registries
      ensures Valid() && g.removed && active == old(active) - {g.name}
    {
      for i := 0 to |registries|
        modifies set r | r in registries
        invariant forall j :: 0 <= j < i ==> Agrees(registries[j], active - {g.name}, filter, id)
        invariant forall j :: i <= j < |registries| ==> Agrees(registries[j], active, filter, id)
      {
        Retract(registries[i], g.name);
      }
      MarkRemoved(g);
    }

    method MarkRemoved(g: Global)
      requires GlobalsValid() && g in globals && !g.removed
      modifies g, `active
      ensures GlobalsValid() && g.removed && active == old(active) - {g.name}
    {
      g.removed := true;
      active := active - {g.name};
    }

    /** wl_global_destroy. */
    method DestroyGlobal(g: Global)
      requires Valid() && g in globals
      modifies g, `active, `globals, set r | r in registries
      ensures Valid() && g !in globals && active == old(active) - {g.name}
      ensures forall h :: h in globals <==> h in old(globals) && h != g
    {
      if !g.removed {
        RemoveGlobal(g);
      }
      Unlink(g);
    }

    method Unlink(g: Global)
      requires GlobalsValid() && g in globals && g.removed
      modifies `globals
      ensures GlobalsValid() && forall h :: h in globals <==> h in old(globals) && h != g
    {
      var k :| 0 <= k < |globals| && globals[k] == g;
      ghost var before := globals;
      globals := globals[..k] + globals[k + 1..];
      WithoutOne(before, k);
      forall n | n in active ensures exists h :: h in globals && h.name == n {
        var h :| h in before && h.name == n;
        assert h in globals;
      }
    }

    /** The names among the first k globals that a client is to be told. */
    ghost function Shown(client: ClientId, k: nat): (s: set<Name>)
      requires k <= |globals|
      reads `globals, globals
    {
      set i | 0 <= i < k && !globals[i].removed && filter(client, globals[i].name) :: globals[i].name
    }

    lemma ShownNext(client: ClientId, k: nat)
      requires k < |globals|
      ensures var g := globals[k];
              Shown(client, k + 1) ==
                if !g.removed && filter(client, g.name) then Shown(client, k) + {g.name} else Shown(client, k)
    {
    }

    lemma ShownAll(client: ClientId)
      requires GlobalsValid()
      ensures Shown(client, |globals|) == set n | n in active && filter(client, n)
    {
      forall n | n in active && filter(client, n) ensures n in Shown(client, |globals|) {
        var g :| g in globals && g.name == n;
        var i :| 0 <= i < |globals| && globals[i] == g;
      }
    }

    /** The names of the first k globals. */
    ghost function Names(k: nat): (s: set<Name>)
      requires k <= |globals|
      reads `globals
    {
      set i | 0 <= i < k :: globals[i].name
    }

    lemma NamesNext(k: nat)
      requires GlobalsValid() && k < |globals|
      ensures Names(k + 1) == Names(k) + {globals[k].name} && globals[k].name !in Names(k)
    {
    }

    /** The new registry is told of one global. */
    method Announce(r: Registry, i: nat)
      requires GlobalsValid() && i < |globals| && Orderly(r.log) && Below(r.log, id)
      requires Known(r.log) == Shown(r.client, i) && NamesAmong(r.log, Names(i))
      modifies r
      ensures Orderly(r.log) && Below(r.log, id)
      ensures Known(r.log) == Shown(r.client, i + 1) && NamesAmong(r.log, Names(i + 1))
    {
      var g := globals[i];
      ShownNext(r.client, i);
      NamesNext(i);
      if filter(r.client, g.name) && !g.removed {
        NewlyAnnounced(r.log, Names(i), g.name, id);
        r.log := r.log + [Announced(g.name)];
      }
    }

    /** The loop of display_get_registry: the new registry is told of the globals there are. */
    method AnnounceAll(r: Registry)
      requires GlobalsValid() && r.log == []
      modifies r
      ensures Agrees(r, active, filter, id)
    {
      for i := 0 to |globals|
        invariant Orderly(r.log) && Below(r.log, id)
        invariant Known(r.log) == Shown(r.client, i) && NamesAmong(r.log, Names(i))
      {
        Announce(r, i);
      }
      ShownAll(r.client);
    }

    /** display_get_registry. */
    method GetRegistry(client: ClientId) returns (r: Registry)
      requires Valid()
      modifies `registries
      ensures Valid() && fresh(r) && r.client == client && registries == [r] + old(registries)
    {
      r := new Registry(client);
      registries := [r] + registries;
      AnnounceAll(r);
    }

    /** unbind_resource: a destroyed registry is told nothing more. */
    method DestroyRegistry(k: nat)
      requires Valid() && k < |registries|
      modifies `registries
      ensures Valid() && registries == old(registries)[..k] + old(registries)[k + 1..]
      ensures forall r :: r in registries ==> r in old(registries)
    {
      ghost var before := registries;
      registries := registries[..k] + registries[k + 1..];
      forall r | r in registries ensures r in before {
        var i :| 0 <= i < |registries| && registries[i] == r;
        assert r == before[if i < k then i else i + 1];
      }
    }

    /** registry_bind: a global that is still linked can be bound, removed or not, under its
        interface and in any version up to its own, if the client may see it.  What is
        wrong with a request is reported in this order: no such global, the interface, the
        version, and only then that the client may not see it. */
    method Bind(client: ClientId, name: Name, iface: string, version: nat) returns (r: Binding)
      requires Valid()
      ensures r.Bound? ==> r.global in globals
      ensures r.Bound? <==> exists g :: g in globals && Bindable(g, client, name, iface, version)
      ensures r == NoGlobal <==> forall g :: g in globals ==> g.name != name
      ensures r == WrongInterface <==> exists g :: g in globals && g.name == name && g.iface != iface
      ensures r == WrongVersion <==>
                exists g :: g in globals && g.name == name && g.iface == iface && !(1 <= version <= g.version)
    {
      for i := 0 to |globals|
        invariant forall j :: 0 <= j < i ==> globals[j].name != name
      {
        if globals[i].name == name {
          return CheckBinding(globals[i], client, iface, version);
        }
      }
      return NoGlobal;
    }

    function CheckBinding(g: Global, client: ClientId, iface: string, version: nat): (r: Binding) {
      if g.iface != iface then WrongInterface
      else if version == 0 || g.version < version then WrongVersion
      else if !filter(client, g.name) then Invisible
      else Bound(g)
    }

    predicate Bindable(g: Global, client: ClientId, name: Name, iface: string, version: nat) {
      g.name == name && g.iface == iface && 1 <= version <= g.version && filter(client, name)
    }

    /** Whatever a registry announced and has not withdrawn can be bound by its client, under
        the interface and in any version from 1 to the one that the global has. */
    lemma KnownCanBeBound(r: Registry, name: Name)
      requires Valid() && r in registries && name in Known(r.log)
      ensures exists g :: g in globals && g.name == name && !g.removed
                && forall version: nat :: 1 <= version <= g.version ==> Bindable(g, r.client, name, g.iface, version)
    {
      assert name in active && filter(r.client, name);
      var g :| g in globals && g.name == name;
      assert g.name in active;
    }
  }

  datatype Binding = Bound(global: Global) | NoGlobal | WrongInterface | WrongVersion | Invisible

  datatype Action =
    | Create(iface: string, version: int, interfaceVersion: int)
    | Remove(k: nat)
    | Destroy(k: nat)
    | Register(client: ClientId)
    | Unregister(k: nat)

  /** Performs an action; what the interface forbids is left out. */
  method Perform(d: Display, a: Action)
    requires d.Valid()
    modifies d, d.globals, d.registries
    ensures d.Valid()
    ensures fresh(set g | g in d.globals && g !in old(d.globals))
    ensures fresh(set r | r in d.registries && r !in old(d.registries))
  {
    match a
    case Create(iface, version, interfaceVersion) =>
      var g := d.CreateGlobal(iface, version, interfaceVersion);
    case Remove(k) =>
      if k < |d.globals| && !d.globals[k].removed {
        d.RemoveGlobal(d.globals[k]);
      }
    case Destroy(k) =>
      if k < |d.globals| {
        d.DestroyGlobal(d.globals[k]);
      }
    case Register(client) =>
      var r := d.GetRegistry(client);
    case Unregister(k) =>
      if k < |d.registries| {
        d.DestroyRegistry(k);
      }
  }

  /** After every sequence of actions every registry agrees with the globals: its notices
      are orderly, and the names it announced and did not withdraw are those of the globals
      that are not removed and that its client may see. */
  method Run(filter: (ClientId, Name) -> bool, actions: seq<Action>) returns (d: Display)
    ensures fresh(d) && d.Valid() && d.filter == filter
    ensures forall r :: r in d.registries ==>
              && Orderly(r.log)
              && forall n :: n in Known(r.log) <==>
                   filter(r.client, n) && exists g :: g in d.globals && g.name == n && !g.removed
  {
    d := new Display(filter);
    for i := 0 to |actions|
      invariant fresh(d) && d.Valid() && d.filter == filter
      invariant fresh(set g | g in d.globals) && fresh(set r | r in d.registries)
    {
      Perform(d, actions[i]);
    }
    forall r, n | r in d.registries
      ensures n in Known(r.log) <==> filter(r.client, n) && exists g :: g in d.globals && g.name == n && !g.removed
    {
      assert Agrees(r, d.active, filter, d.id);
      if n in Known(r.log) {
        d.KnownCanBeBound(r, n);
      }
    }
  }
}
