/** Ids that the server allocates.

    Unlike a client id, such an id is reused without a delete_id and leaves no zombie
    behind.  Here it is said exactly when the client refuses an event and when it loses
    step with the fd stream, and which runs are free of both although the server
    allocates ids. */
module ServerIds {
  import opened Wrappers
  import opened Words
  import opened ObjectMap
  import opened Interfaces
  import opened IdProtocol

  // ---------------------------------------------------- what the client stores

  /** A client entry of a server id: NULL or a proxy, never a zombie. */
  predicate Plain(slot: Slot<ClientEntry>) {
    slot.Used? && !slot.flag && (slot.data.Some? ==> slot.data.value.Proxy? && !slot.data.value.idDeleted)
  }

  /** A client entry of a client id: zombies are flagged, and proxies are not. */
  predicate Marked(slot: Slot<ClientEntry>) {
    slot.Used? && slot.data.Some? ==> (slot.data.value.Zombie? <==> slot.flag)
  }

  ghost predicate AllPlain(t: ClientSlots) {
    forall i :: 0 <= i < |t| ==> Plain(t[i])
  }

  ghost predicate AllMarked(t: ClientSlots) {
    forall i :: 0 <= i < |t| ==> Marked(t[i])
  }

  ghost predicate Sound(m: ObjectMap<ClientEntry>) {
    m.side == ClientSide && AllMarked(m.clientEntries) && AllPlain(m.serverEntries)
  }

  lemma InsertNewSound(m: ObjectMap<ClientEntry>, iface: Interface)
    requires m.Valid() && Sound(m)
    ensures var m' := InsertNew(m, false, Some(Proxy(iface, false))).0;
            Sound(m') && m'.serverEntries == m.serverEntries
  {
    if m.free != [] {
      assert m.free[0] in m.free;
    }
  }

  lemma {:induction false} CreateProxiesSound(m: ObjectMap<ClientEntry>, ifaces: seq<Interface>)
    requires m.Valid() && Sound(m)
    ensures Sound(CreateProxies(m, ifaces).0) && CreateProxies(m, ifaces).0.serverEntries == m.serverEntries
    decreases |ifaces|
  {
    if ifaces != [] {
      var (m1, id) := InsertNew(m, false, Some(Proxy(ifaces[0], false)));
      InsertNewValid(m, false, Some(Proxy(ifaces[0], false)));
      InsertNewSound(m, ifaces[0]);
      if id != 0 {
        CreateProxiesSound(m1, ifaces[1..]);
      }
    }
  }

  lemma {:induction false} ReserveAllSound(m: ObjectMap<ClientEntry>, created: seq<NewObject>)
    requires Sound(m) && ReserveAll(m, created).Ok?
    ensures Sound(ReserveAll(m, created).value)
    ensures forall j :: 0 <= j < |created| ==> !IsClientId(created[j].id)
    decreases |created|
  {
    if created != [] {
      ReserveAllSound(ReserveNew(m, created[0].id).value, created[1..]);
      assert forall j :: 1 <= j < |created| ==> created[j] == created[1..][j - 1];
    }
  }

  lemma {:induction false} CreateAllSound(m: ObjectMap<ClientEntry>, created: seq<NewObject>)
    requires Sound(m) && CreateAll(m, created).Ok?
    requires forall j :: 0 <= j < |created| ==> !IsClientId(created[j].id)
    ensures Sound(CreateAll(m, created).value)
    decreases |created|
  {
    if created != [] {
      CreateAllSound(InsertAt(m, false, created[0].id, Some(Proxy(created[0].iface, false))).value, created[1..]);
    }
  }

  lemma ReadEventSound(s: State, params: seq<Param>)
    requires Sound(s.client) && s.events != [] && s.events[0].Event?
    ensures Sound(DoReadEvent(s, params).client)
  {
    var p := ReadPayload(s.types, params, s.events[0].words);
    if p.Some? && Demarshal(s.client, p.value.created).Ok? {
      ReserveAllSound(s.client, p.value.created);
      CreateAllSound(ReserveAll(s.client, p.value.created).value, p.value.created);
    }
  }

  lemma ReadSound(s: State)
    requires Sound(s.client) && s.events != []
    ensures Sound(DoClientRead(s).client)
  {
    if s.events[0].Event? {
      forall params: seq<Param> ensures Sound(DoReadEvent(s, params).client) {
        ReadEventSound(s, params);
      }
    }
  }

  lemma DispatchSound(s: State)
    requires Inv(s) && Sound(s.client) && s.deletions != []
    ensures DispatchKeeps(s, DoClientDispatch(s))
  {
    assert s.deletions[0] in Deleting(s);
    OwnIdDispatched(s);
  }

  /** Only the client's array of its own ids changed, and one delete_id was handled. */
  ghost predicate DispatchKeeps(s: State, s': State) {
    && s' == s.(client := s'.client, deletions := s'.deletions)
    && Sound(s'.client) && s'.client.serverEntries == s.client.serverEntries
  }

  lemma OwnIdDispatched(s: State)
    requires s.client.Valid() && Sound(s.client) && s.deletions != [] && IsClientId(s.deletions[0])
    ensures DispatchKeeps(s, DoClientDispatch(s))
  {
  }

  lemma StoreSound(m: ObjectMap<ClientEntry>, flag: bool, id: nat, data: Option<ClientEntry>)
    requires Sound(m)
    requires if IsClientId(id) then Marked(Used(data, flag)) else Plain(Used(data, flag))
    ensures Sound(StoreAt(m, flag, id, data))
  {
  }

  lemma DestroySound(s: State, id: nat)
    requires Inv(s) && Sound(s.client)
    ensures Sound(DoClientDestroy(s, id).client)
  {
    var p := Lookup(s.client, id);
    if id != 1 && p.Some? && p.value.Proxy? {
      if !IsClientId(id) {
        assert Plain(s.client.serverEntries[Index(id)]);
        StoreSound(s.client, false, id, None);
      } else if p.value.idDeleted {
        assert Sound(Remove(s.client, id));
      } else {
        StoreSound(s.client, true, id, PrepareZombie(p.value.iface));
      }
    }
  }

  lemma OthersKeepClient(s: State, a: Action)
    requires s.client.Valid() && s.server.Valid()
    requires !a.Request? && !a.Allocate? && !a.ClientDestroy? && !a.ClientRead? && !a.ClientDispatch?
    ensures Step(s, a).client == s.client
  {
  }

  lemma SoundStep(s: State, a: Action)
    requires Inv(s) && Sound(s.client)
    ensures Sound(Step(s, a).client)
  {
    match a {
      case Request(ifaces, _) => CreateProxiesSound(s.client, ifaces);
      case Allocate(iface) => InsertNewSound(s.client, iface);
      case ClientDestroy(id) => DestroySound(s, id);
      case ClientRead => if s.events != [] { ReadSound(s); }
      case ClientDispatch => if s.deletions != [] { DispatchSound(s); }
      case _ => OthersKeepClient(s, a);
    }
  }

  lemma InitSound(protocol: Protocol)
    ensures Sound(Init(protocol).client)
  {
  }

  lemma {:induction false} RunSound(protocol: Protocol, actions: seq<Action>)
    ensures Sound(Run(protocol, actions).client)
    decreases |actions|
  {
    if actions == [] {
      InitSound(protocol);
    } else {
      RunSound(protocol, actions[..|actions| - 1]);
      RunInv(protocol, actions[..|actions| - 1]);
      SoundStep(Run(protocol, actions[..|actions| - 1]), actions[|actions| - 1]);
    }
  }

  // ------------------------------------------------ what the client can accept

  /** Nothing is stored under a server id. */
  predicate Empty(t: ClientSlots, id: nat) {
    Index(id) < |t| ==> t[Index(id)] == Used(None, false)
  }

  predicate AtIndex(created: seq<NewObject>, i: nat) {
    exists j :: 0 <= j < |created| && Index(created[j].id) == i
  }

  lemma AtIndexRest(created: seq<NewObject>, i: nat)
    requires created != []
    ensures AtIndex(created, i) <==> Index(created[0].id) == i || AtIndex(created[1..], i)
  {
    if AtIndex(created[1..], i) {
      var j :| 0 <= j < |created[1..]| && Index(created[1..][j].id) == i;
      assert Index(created[j + 1].id) == i;
    }
    if AtIndex(created, i) {
      var j :| 0 <= j < |created| && Index(created[j].id) == i;
      assert j > 0 ==> created[1..][j - 1] == created[j];
    }
  }

  /** Every index between the end of the array and this new id is announced before it. */
  ghost predicate LeavesNoGap(t: ClientSlots, created: seq<NewObject>, j: nat)
    requires j < |created|
  {
    forall i :: |t| <= i < Index(created[j].id) ==> AtIndex(created[..j], i)
  }

  /** A new id of an event is one that the server may allocate, in range, without a gap,
      and nothing is stored under it. */
  ghost predicate Admissible(t: ClientSlots, created: seq<NewObject>, j: nat)
    requires j < |created|
  {
    var id := created[j].id;
    !IsClientId(id) && Index(id) <= MAX_OBJECTS && Empty(t, id) && LeavesNoGap(t, created, j)
  }

  ghost predicate AllAdmissible(t: ClientSlots, created: seq<NewObject>) {
    forall j :: 0 <= j < |created| ==> Admissible(t, created, j)
  }

  /** The array after the first new id was reserved. */
  function Padded(t: ClientSlots, o: NewObject): ClientSlots {
    if Index(o.id) == |t| then t + [Used(None, false)] else t
  }

  /** The first new id can only be the next one or one that is in the array. */
  lemma FirstLeavesNoGap(t: ClientSlots, created: seq<NewObject>)
    requires created != []
    ensures LeavesNoGap(t, created, 0) <==> Index(created[0].id) <= |t|
  {
    if Index(created[0].id) > |t| {
      assert !AtIndex(created[..0], |t|);
    }
  }

  /** Looking at the rest of the new ids after the first one changes nothing. */
  lemma AdmissibleRest(t: ClientSlots, created: seq<NewObject>, j: nat)
    requires 1 <= j < |created| && Admissible(t, created, 0)
    ensures Admissible(t, created, j) <==> Admissible(Padded(t, created[0]), created[1..], j - 1)
  {
    var t', rest := Padded(t, created[0]), created[1..];
    FirstLeavesNoGap(t, created);
    var before, before' := created[..j], rest[..j - 1];
    assert before[1..] == before' && rest[j - 1] == created[j];
    forall i: nat ensures AtIndex(before, i) <==> Index(created[0].id) == i || AtIndex(before', i) {
      AtIndexRest(before, i);
    }
    if LeavesNoGap(t', rest, j - 1) {
      forall i | |t| <= i < Index(created[j].id) ensures AtIndex(before, i) {
        assert i >= |t'| ==> AtIndex(before', i);
      }
    }
    if LeavesNoGap(t, created, j) {
      forall i | |t'| <= i < Index(created[j].id) ensures AtIndex(before', i) {
        assert AtIndex(before, i);
      }
    }
  }

  /** The first new id is reserved exactly if it is admissible. */
  lemma FirstAdmissible(m: ObjectMap<ClientEntry>, created: seq<NewObject>)
    requires m.side == ClientSide && created != []
    ensures ReserveNew(m, created[0].id).Ok? <==> Admissible(m.serverEntries, created, 0)
    ensures ReserveNew(m, created[0].id).Ok? ==>
              ReserveNew(m, created[0].id).value == m.(serverEntries := Padded(m.serverEntries, created[0]))
  {
    FirstLeavesNoGap(m.serverEntries, created);
  }

  /** The array after all new ids were reserved. */
  function PaddedAll(t: ClientSlots, created: seq<NewObject>): (t': ClientSlots)
    decreases |created|
  {
    if created == [] then t else PaddedAll(Padded(t, created[0]), created[1..])
  }

  /** All new ids are reserved exactly if each of them is admissible. */
  lemma {:induction false} ReservedIffAdmissible(m: ObjectMap<ClientEntry>, created: seq<NewObject>)
    requires m.side == ClientSide
    ensures ReserveAll(m, created).Ok? <==> AllAdmissible(m.serverEntries, created)
    ensures ReserveAll(m, created).Ok? ==>
              ReserveAll(m, created).value == m.(serverEntries := PaddedAll(m.serverEntries, created))
    decreases |created|
  {
    if created != [] {
      var t := m.serverEntries;
      FirstAdmissible(m, created);
      if ReserveNew(m, created[0].id).Ok? {
        var m' := ReserveNew(m, created[0].id).value;
        ReservedIffAdmissible(m', created[1..]);
        AllAdmissibleRest(t, created);
      }
    }
  }

  lemma AllAdmissibleRest(t: ClientSlots, created: seq<NewObject>)
    requires created != [] && Admissible(t, created, 0)
    ensures AllAdmissible(t, created) <==> AllAdmissible(Padded(t, created[0]), created[1..])
  {
    var t', rest := Padded(t, created[0]), created[1..];
    forall j | 1 <= j < |created| ensures Admissible(t, created, j) <==> Admissible(t', rest, j - 1) {
      AdmissibleRest(t, created, j);
    }
    if !AllAdmissible(t', rest) {
      var j :| 0 <= j < |rest| && !Admissible(t', rest, j);
      assert !Admissible(t, created, j + 1);
    }
    if AllAdmissible(t', rest) {
      forall j | 0 <= j < |created| ensures Admissible(t, created, j) {
        if j > 0 {
          assert Admissible(t', rest, j - 1);
        }
      }
    }
  }

  /** What the client stores for a server id, if it is a proxy. */
  function Live(t: ClientSlots, id: nat): (r: Option<Interface>) {
    var i := Index(id);
    if i < |t| && t[i].Used? && t[i].data.Some? && t[i].data.value.Proxy? then Some(t[i].data.value.iface) else None
  }

  lemma CreatesRest(created: seq<NewObject>, id: nat)
    requires created != []
    ensures Creates(created, id) <==> created[0].id == id || Creates(created[1..], id)
  {
    if Creates(created[1..], id) {
      var j :| 0 <= j < |created[1..]| && created[1..][j].id == id;
      assert created[j + 1].id == id;
    }
    if Creates(created, id) {
      var j :| 0 <= j < |created| && created[j].id == id;
      assert j > 0 ==> created[1..][j - 1] == created[j];
    }
  }

  /** Reserving adds NULL entries, exactly for the new ids that are not in the array. */
  lemma {:induction false} PaddedAllGrows(t: ClientSlots, created: seq<NewObject>)
    requires AllAdmissible(t, created)
    ensures var t' := PaddedAll(t, created);
            && t <= t' && (forall i :: |t| <= i < |t'| ==> t'[i] == Used(None, false))
            && (forall i: nat :: i < |t'| <==> i < |t| || AtIndex(created, i))
    decreases |created|
  {
    if created != [] {
      assert Admissible(t, created, 0);
      AllAdmissibleRest(t, created);
      PaddedAllGrows(Padded(t, created[0]), created[1..]);
      FirstLeavesNoGap(t, created);
      forall i: nat ensures AtIndex(created, i) <==> Index(created[0].id) == i || AtIndex(created[1..], i) {
        AtIndexRest(created, i);
      }
    }
  }

  function Stored(t: ClientSlots, o: NewObject): ClientSlots {
    if Index(o.id) < |t| then t[Index(o.id) := Used(Some(Proxy(o.iface, false)), false)] else t
  }

  /** The array after the proxies of the new objects were created. */
  function Filled(t: ClientSlots, created: seq<NewObject>): (t': ClientSlots)
    decreases |created|
  {
    if created == [] then t else Filled(Stored(t, created[0]), created[1..])
  }

  lemma {:induction false} CreatedIsFilled(m: ObjectMap<ClientEntry>, created: seq<NewObject>)
    requires forall j :: 0 <= j < |created| ==> var id := created[j].id;
               !IsClientId(id) && Index(id) <= MAX_OBJECTS && Index(id) < |m.serverEntries|
    ensures CreateAll(m, created) == Ok(m.(serverEntries := Filled(m.serverEntries, created)))
    decreases |created|
  {
    if created != [] {
      CreatedIsFilled(InsertAt(m, false, created[0].id, Some(Proxy(created[0].iface, false))).value, created[1..]);
    }
  }

  /** The array after an event with these new objects was read. */
  function Grown(t: ClientSlots, created: seq<NewObject>): (t': ClientSlots) {
    Filled(PaddedAll(t, created), created)
  }

  /** Demarshalling succeeds exactly if every new id is admissible. */
  lemma DemarshalIff(m: ObjectMap<ClientEntry>, created: seq<NewObject>)
    requires m.side == ClientSide
    ensures Demarshal(m, created).Ok? <==> AllAdmissible(m.serverEntries, created)
    ensures Demarshal(m, created).Ok? ==>
              Demarshal(m, created).value == m.(serverEntries := Grown(m.serverEntries, created))
  {
    ReservedIffAdmissible(m, created);
    if AllAdmissible(m.serverEntries, created) {
      PaddedAllGrows(m.serverEntries, created);
      var m' := ReserveAll(m, created).value;
      forall j | 0 <= j < |created|
        ensures var id := created[j].id;
                !IsClientId(id) && Index(id) <= MAX_OBJECTS && Index(id) < |m'.serverEntries|
      {
        assert Admissible(m.serverEntries, created, j);
        assert AtIndex(created, Index(created[j].id));
      }
      CreatedIsFilled(m', created);
    }
  }

  /** The interface with which an id was announced last. */
  function LastCreated(created: seq<NewObject>, id: nat): (iface: Option<Interface>)
    ensures iface.Some? <==> Creates(created, id)
    ensures iface.Some? ==> exists j :: 0 <= j < |created| && created[j] == NewObject(id, iface.value)
  {
    if created == [] then None
    else
      var rest := LastCreated(created[1..], id);
      CreatesRest(created, id);
      if rest.Some? then CreatedLater(created, id, rest.value); rest
      else if created[0].id == id then assert created[0] == NewObject(id, created[0].iface); Some(created[0].iface)
      else None
  }

  lemma CreatedLater(created: seq<NewObject>, id: nat, iface: Interface)
    requires created != [] && exists j :: 0 <= j < |created[1..]| && created[1..][j] == NewObject(id, iface)
    ensures exists j :: 0 <= j < |created| && created[j] == NewObject(id, iface)
  {
    var j :| 0 <= j < |created[1..]| && created[1..][j] == NewObject(id, iface);
    assert created[j + 1] == created[1..][j];
  }

  /** A new object replaces what was live under its id. */
  function Announced(created: seq<NewObject>, id: nat, before: Option<Interface>): Option<Interface> {
    if Creates(created, id) then LastCreated(created, id) else before
  }

  lemma {:induction false} FilledLive(t: ClientSlots, created: seq<NewObject>, x: nat)
    requires AllPlain(t) && !IsClientId(x)
    requires forall j :: 0 <= j < |created| ==> !IsClientId(created[j].id) && Index(created[j].id) < |t|
    ensures var t' := Filled(t, created);
            && |t'| == |t| && AllPlain(t') && Live(t', x) == Announced(created, x, Live(t, x))
    decreases |created|
  {
    if created != [] {
      CreatesRest(created, x);
      FilledLive(Stored(t, created[0]), created[1..], x);
    }
  }

  /** After an event was read its new ids are live and all others are as they were. */
  lemma GrownLive(t: ClientSlots, created: seq<NewObject>, x: nat)
    requires AllPlain(t) && AllAdmissible(t, created) && !IsClientId(x)
    ensures var t' := Grown(t, created);
            && AllPlain(t') && (forall i: nat :: i < |t'| <==> i < |t| || AtIndex(created, i))
            && Live(t', x) == Announced(created, x, Live(t, x))
  {
    PaddedAllGrows(t, created);
    var t1 := PaddedAll(t, created);
    forall j | 0 <= j < |created| ensures !IsClientId(created[j].id) && Index(created[j].id) < |t1| {
      assert Admissible(t, created, j);
      assert AtIndex(created, Index(created[j].id));
    }
    FilledLive(t1, created, x);
  }

  // ------------------------------------------------- when an event is refused

  /** The client does not know the sender of an event any more. */
  predicate Discards(m: ObjectMap<ClientEntry>, id: nat) {
    Lookup(m, id).None? || IsZombie(m, id)
  }

  /** The interface of the proxy that the client has for an id once it has created the event's
      new objects. */
  function Found(m: ObjectMap<ClientEntry>, created: seq<NewObject>, id: nat): Option<Interface> {
    var p := Lookup(m, id);
    Announced(created, id, if p.Some? && p.value.Proxy? then Some(p.value.iface) else None)
  }

  /** The object argument is neither NULL nor destroyed by the client, and is unknown, or is
      of another interface than the message names. */
  predicate Unresolved(m: ObjectMap<ClientEntry>, created: seq<NewObject>, r: ObjectRef) {
    && r.id != 0 && !IsZombie(m, r.id)
    && (Found(m, created, r.id).None? || !Matches(Found(m, created, r.id).value, r))
  }

  /** A new id is not admissible, or an argument does not resolve. */
  ghost predicate Misnames(m: ObjectMap<ClientEntry>, p: Payload) {
    !AllAdmissible(m.serverEntries, p.created) || exists r :: r in p.args && Unresolved(m, p.created, r)
  }

  /** The first event cannot be read by these parameters: they want more fds than have come,
      or do not fit the words, or what they make of them names the wrong objects. */
  ghost predicate Unfit(s: State, params: seq<Param>)
    requires s.events != [] && s.events[0].Event?
  {
    var p := ReadPayload(s.types, params, s.events[0].words);
    |s.fdStream| < CountFds(params) || p.None? || Misnames(s.client, p.value)
  }

  /** The first event cannot be read: its sender's interface has no such event, or its
      parameters are unfit for it. */
  ghost predicate Refuses(s: State)
    requires s.events != [] && s.events[0].Event?
  {
    var e, p := s.events[0], Lookup(s.client, s.events[0].id);
    && !Discards(s.client, e.id)
    && (p.value.Zombie? || e.opcode >= |p.value.iface.events| || Unfit(s, p.value.iface.events[e.opcode]))
  }

  /** What the first event is refused for, once its sender is one of the client's ids: it
      is read as it was meant, and the fds and the client's own ids are always right. */
  ghost predicate RefusesForServerIds(s: State)
    requires s.events != [] && s.events[0].Event?
  {
    var e, m := s.events[0], s.client;
    && !Discards(m, e.id)
    && (|| !AllAdmissible(m.serverEntries, e.meant.created)
        || exists r :: r in e.meant.args && !IsClientId(r.id) && Unresolved(m, e.meant.created, r))
  }

  lemma CreatesNoClientId(m: ObjectMap<ClientEntry>, created: seq<NewObject>, x: nat)
    requires AllAdmissible(m.serverEntries, created) && IsClientId(x)
    ensures !Creates(created, x)
  {
    forall j | 0 <= j < |created| ensures created[j].id != x {
      assert Admissible(m.serverEntries, created, j);
    }
  }

  /** After an event's new objects were created, an argument resolves or is unresolved. */
  lemma ResolvesIff(m: ObjectMap<ClientEntry>, created: seq<NewObject>, r: ObjectRef)
    requires Sound(m) && AllAdmissible(m.serverEntries, created)
    ensures Demarshal(m, created).Ok?
    ensures ResolvesObject(Demarshal(m, created).value, r) <==> !Unresolved(m, created, r)
  {
    DemarshalIff(m, created);
    if IsClientId(r.id) {
      CreatesNoClientId(m, created, r.id);
    } else {
      GrownLive(m.serverEntries, created, r.id);
      LookupLive(m, r.id);
      LookupLive(Demarshal(m, created).value, r.id);
    }
  }

  lemma LookupLive(m: ObjectMap<ClientEntry>, x: nat)
    requires Sound(m) || AllPlain(m.serverEntries)
    requires !IsClientId(x)
    ensures Lookup(m, x).Some? <==> Live(m.serverEntries, x).Some?
    ensures Lookup(m, x).Some? ==> Lookup(m, x) == Some(Proxy(Live(m.serverEntries, x).value, false))
  {
    if Index(x) < |m.serverEntries| {
      assert Plain(m.serverEntries[Index(x)]);
    }
  }

  lemma MisnamesIff(m: ObjectMap<ClientEntry>, p: Payload)
    requires Sound(m)
    ensures var m' := Demarshal(m, p.created);
            Misnames(m, p) <==> m'.Err? || !ResolvesAll(m'.value, p.args)
  {
    DemarshalIff(m, p.created);
    if AllAdmissible(m.serverEntries, p.created) {
      var m' := Demarshal(m, p.created).value;
      forall r: ObjectRef ensures ResolvesObject(m', r) <==> !Unresolved(m, p.created, r) {
        ResolvesIff(m, p.created, r);
      }
      if !ResolvesAll(m', p.args) {
        var j :| 0 <= j < |p.args| && !ResolvesObject(m', p.args[j]);
        assert p.args[j] in p.args;
      }
    }
  }

  lemma UnfitIff(s: State, params: seq<Param>)
    requires Sound(s.client) && !s.clientError && s.events != [] && s.events[0].Event?
    ensures DoReadEvent(s, params).clientError <==> Unfit(s, params)
  {
    var p := ReadPayload(s.types, params, s.events[0].words);
    if p.Some? {
      MisnamesIff(s.client, p.value);
    }
  }

  lemma ReadFailsIff(s: State)
    requires Sound(s.client) && !s.clientError && s.events != [] && s.events[0].Event?
    ensures DoClientRead(s).clientError <==> Refuses(s)
  {
    forall params: seq<Param> ensures DoReadEvent(s, params).clientError <==> Unfit(s, params) {
      UnfitIff(s, params);
    }
  }

  lemma ClientSenderRefusals(s: State)
    requires Inv(s) && Sound(s.client) && s.aligned && s.events != [] && s.events[0].Event?
    requires IsClientId(s.events[0].id)
    ensures Refuses(s) <==> RefusesForServerIds(s)
  {
    var e := s.events[0];
    ClientIdSender(s);
    assert s.fdStream == e.fds + AllFds(s.events[1..]);
    if AllAdmissible(s.client.serverEntries, e.meant.created) {
      OwnIdsResolve(s);
    }
  }

  /** The client's own ids among the arguments resolve. */
  lemma OwnIdsResolve(s: State)
    requires Inv(s) && s.events != [] && s.events[0].Event?
    requires AllAdmissible(s.client.serverEntries, s.events[0].meant.created)
    ensures var p := s.events[0].meant;
            forall r :: r in p.args && IsClientId(r.id) ==> !Unresolved(s.client, p.created, r)
  {
    var p := s.events[0].meant;
    forall r | r in p.args && IsClientId(r.id) ensures !Unresolved(s.client, p.created, r) {
      RefResolves(s, r);
      CreatesNoClientId(s.client, p.created, r.id);
    }
  }

  /** In every reachable state, with whatever is under way, the client refuses the next
      event exactly for the reasons named; if the client allocated the sender's id and no
      fd went astray before, only ids of the server can be the reason. */
  lemma RefusedIff(protocol: Protocol, actions: seq<Action>)
    requires var s := Run(protocol, actions);
             !s.clientError && s.events != [] && s.events[0].Event?
    ensures var s := Run(protocol, actions);
            && (DoClientRead(s).clientError <==> Refuses(s))
            && (s.aligned && IsClientId(s.events[0].id) ==> (Refuses(s) <==> RefusesForServerIds(s)))
  {
    var s := Run(protocol, actions);
    RunInv(protocol, actions);
    RunSound(protocol, actions);
    ReadFailsIff(s);
    if s.aligned && IsClientId(s.events[0].id) {
      ClientSenderRefusals(s);
    }
  }

  /** How many fds the client expects of an event: those of its proxy's interface, and none
      if it discards an event of a server id. */
  function ExpectedFds(m: ObjectMap<ClientEntry>, id: nat, opcode: nat): nat {
    match Live(m.serverEntries, id)
    case None => 0
    case Some(iface) => if opcode < |iface.events| then CountFds(iface.events[opcode]) else 0
  }

  /** What an event that is not refused takes from the stream. */
  lemma ReadTakes(s: State)
    requires Sound(s.client) && s.events != [] && s.events[0].Event? && !s.clientError && !Refuses(s)
    ensures var e := s.events[0];
            var p := Lookup(s.client, e.id);
            var n := if Discards(s.client, e.id) then DiscardFds(s.client, e.id, e.opcode)
                     else CountFds(p.value.iface.events[e.opcode]);
            && (!Discards(s.client, e.id) ==> n <= |s.fdStream|)
            && DoClientRead(s) == Take(s.(events := s.events[1..], client := DoClientRead(s).client), n, e)
  {
    ReadFailsIff(s);
  }

  /** In every reachable state that is in step with the fd stream, the next event that is
      not refused keeps it so exactly if the client allocated the sender's id, or expects
      as many fds of it as it carries: not if an fd-carrying event is discarded, and not
      if the proxy is one of an earlier object under the same id. */
  lemma StaysAlignedIff(protocol: Protocol, actions: seq<Action>)
    requires var s := Run(protocol, actions);
             !s.clientError && s.aligned && s.events != [] && s.events[0].Event? && !Refuses(s)
    ensures var s := Run(protocol, actions);
            var e := s.events[0];
            DoClientRead(s).aligned <==> IsClientId(e.id) || ExpectedFds(s.client, e.id, e.opcode) == |e.fds|
  {
    var s := Run(protocol, actions);
    RunInv(protocol, actions);
    RunSound(protocol, actions);
    AlignedReadIff(s);
  }

  lemma AlignedReadIff(s: State)
    requires Inv(s) && Sound(s.client) && s.events != [] && s.events[0].Event? && !s.clientError && !Refuses(s)
    requires s.aligned
    ensures var e := s.events[0];
            DoClientRead(s).aligned <==> IsClientId(e.id) || ExpectedFds(s.client, e.id, e.opcode) == |e.fds|
  {
    var e := s.events[0];
    ReadTakes(s);
    assert |s.fdStream| >= |e.fds| by {
      assert s.fdStream == e.fds + AllFds(s.events[1..]);
    }
    if IsClientId(e.id) {
      ClientIdSender(s);
    } else {
      LookupLive(s.client, e.id);
    }
  }

  // --------------------------------------------- runs in which nothing goes wrong

  /** An event of a server id can be read from this array: a proxy under its sender's id is
      of its sender's interface, its new ids are admissible, and its arguments are then live
      and of the interfaces named. */
  ghost predicate Readable(t: ClientSlots, e: Event)
    requires e.Event?
  {
    && (!IsClientId(e.id) && Live(t, e.id).Some? ==> Live(t, e.id) == Some(e.sender))
    && AllAdmissible(t, e.meant.created)
    && (forall r :: r in e.meant.args && !IsClientId(r.id) ==> LiveAs(Grown(t, e.meant.created), r))
  }

  predicate LiveAs(t: ClientSlots, r: ObjectRef) {
    Live(t, r.id).Some? && Matches(Live(t, r.id).value, r)
  }

  function AfterEvent(t: ClientSlots, e: Event): ClientSlots {
    if e.Event? then Grown(t, e.meant.created) else t
  }

  /** All events under way can be read one after the other. */
  ghost predicate AllReadable(t: ClientSlots, es: seq<Event>)
    decreases |es|
  {
    es == [] || ((es[0].Event? ==> Readable(t, es[0])) && AllReadable(AfterEvent(t, es[0]), es[1..]))
  }

  /** The array once all events under way have been read. */
  function AfterAll(t: ClientSlots, es: seq<Event>): (t': ClientSlots)
    decreases |es|
  {
    if es == [] then t else AfterAll(AfterEvent(t, es[0]), es[1..])
  }

  lemma {:induction false} AfterAllAppend(t: ClientSlots, es: seq<Event>, e: Event)
    ensures AfterAll(t, es + [e]) == AfterEvent(AfterAll(t, es), e)
    ensures AllReadable(t, es) && (e.Event? ==> Readable(AfterAll(t, es), e)) ==> AllReadable(t, es + [e])
    decreases |es|
  {
    if es == [] {
      assert es + [e] == [e];
    } else {
      assert (es + [e])[1..] == es[1..] + [e];
      AfterAllAppend(AfterEvent(t, es[0]), es[1..], e);
    }
  }

  /** An event under way announces this id. */
  predicate InFlight(es: seq<Event>, x: nat) {
    exists k :: 0 <= k < |es| && es[k].Event? && Creates(es[k].meant.created, x)
  }

  lemma InFlightRest(es: seq<Event>, x: nat)
    requires es != []
    ensures InFlight(es, x) <==> (es[0].Event? && Creates(es[0].meant.created, x)) || InFlight(es[1..], x)
  {
    if InFlight(es[1..], x) {
      var k :| 0 <= k < |es[1..]| && es[1..][k].Event? && Creates(es[1..][k].meant.created, x);
      assert es[k + 1].Event? && Creates(es[k + 1].meant.created, x);
    }
    if InFlight(es, x) {
      var k :| 0 <= k < |es| && es[k].Event? && Creates(es[k].meant.created, x);
      assert k > 0 ==> es[1..][k - 1] == es[k];
    }
  }

  lemma AtIndexCreates(t: ClientSlots, created: seq<NewObject>, x: nat)
    requires AllAdmissible(t, created) && !IsClientId(x)
    ensures AtIndex(created, Index(x)) <==> Creates(created, x)
  {
    forall j | 0 <= j < |created| ensures !IsClientId(created[j].id) {
      assert Admissible(t, created, j);
    }
    if AtIndex(created, Index(x)) {
      var j :| 0 <= j < |created| && Index(created[j].id) == Index(x);
      assert created[j].id == x;
    }
  }

  /** What is live in the end is live now or announced under way; and so for the slots. */
  lemma {:induction false} AfterAllLive(t: ClientSlots, es: seq<Event>, x: nat)
    requires AllPlain(t) && AllReadable(t, es) && !IsClientId(x)
    ensures var t' := AfterAll(t, es);
            && AllPlain(t')
            && (Live(t', x).Some? <==> Live(t, x).Some? || InFlight(es, x))
            && (Index(x) < |t'| <==> Index(x) < |t| || InFlight(es, x))
    decreases |es|
  {
    if es != [] {
      InFlightRest(es, x);
      if es[0].Event? {
        GrownLive(t, es[0].meant.created, x);
        AtIndexCreates(t, es[0].meant.created, x);
      }
      AfterAllLive(AfterEvent(t, es[0]), es[1..], x);
    }
  }

  /** Every proxy that the client has or will have for a server id is of the interface of
      the server's object, if there is one. */
  ghost predicate Agree(m: ObjectMap<Interface>, t: ClientSlots) {
    forall x: nat :: !IsClientId(x) && Lookup(m, x).Some? && Live(t, x).Some? ==> Live(t, x) == Lookup(m, x)
  }

  /** The client has a proxy under a server id or is about to get one. */
  predicate Claimed(s: State, x: nat) {
    Live(s.client.serverEntries, x).Some? || InFlight(s.events, x)
  }

  /** An object the server may announce: under one of its own ids, for which the client neither
      has nor is about to get a proxy, every smaller index having been announced before. */
  ghost predicate Announceable(s: State, created: seq<NewObject>, j: nat)
    requires j < |created|
  {
    && !IsClientId(created[j].id) && !Claimed(s, created[j].id)
    && forall x: nat :: !IsClientId(x) && |s.client.serverEntries| <= Index(x) < Index(created[j].id) ==>
         InFlight(s.events, x) || Creates(created[..j], x)
  }

  /** What the server may say: it announces in order, and names no other objects of its own
      than those that the client has a proxy of or is about to get one of. */
  ghost predicate Sayable(s: State, p: Payload) {
    && (forall j :: 0 <= j < |p.created| ==> Announceable(s, p.created, j))
    && (forall r :: r in p.args && !IsClientId(r.id) ==> Claimed(s, r.id) || Creates(p.created, r.id))
  }

  predicate NamesArg(p: Payload, x: nat) {
    exists j :: 0 <= j < |p.args| && p.args[j].id == x
  }

  /** The id of the next object that the server creates, 0 if there is none left. */
  function NextId(m: ObjectMap<Interface>): nat {
    if m.free != [] then m.free[0] + Base(m.side)
    else if |m.Own()| > MAX_OBJECTS then 0
    else |m.Own()| + Base(m.side)
  }

  /** The step keeps to the rules for server ids: none is created anew while the client has
      or is about to get a proxy under it; each is announced in order, before it is used
      as an argument, and not used as one after the client destroyed its proxy; and no
      discarded event announces an object or, if its sender is a server id, carries fds. */
  ghost predicate Orderly(s: State, a: Action) {
    match a
    case ServerCreate(_) =>
      var id := NextId(s.server);
      !s.serverError && id != 0 ==> !Claimed(s, id)
    case ServerEvent(id, opcode, words) =>
      var p := Posted(s.types, s.server, id, opcode, words);
      !s.serverError && p.Some? ==> Sayable(s, p.value)
    case ClientDestroy(id) =>
      !IsClientId(id) ==> forall k :: 0 <= k < |s.events| && s.events[k].Event? ==> !NamesArg(s.events[k].meant, id)
    case ClientRead =>
      !s.clientError && s.events != [] && s.events[0].Event? && Discards(s.client, s.events[0].id) ==>
        s.events[0].meant.created == [] && (IsClientId(s.events[0].id) || s.events[0].fds == [])
    case _ => true
  }

  /** The client is in step, and can read everything that is under way. */
  ghost predicate Tidy(s: State) {
    && Sound(s.client) && s.aligned
    && AllReadable(s.client.serverEntries, s.events)
    && Agree(s.server, AfterAll(s.client.serverEntries, s.events))
  }

  // ----- the client's steps

  /** The first event is read as it was meant, and names the right objects. */
  lemma TidyNotRefused(s: State)
    requires Inv(s) && Tidy(s) && s.events != [] && s.events[0].Event?
    ensures var e := s.events[0];
            && !Refuses(s) && WellPosted(s.types, e)
            && (!Discards(s.client, e.id) ==> Lookup(s.client, e.id).value == Proxy(e.sender, false))
  {
    var e, m := s.events[0], s.client;
    assert s.fdStream == e.fds + AllFds(s.events[1..]);
    if IsClientId(e.id) {
      ClientIdSender(s);
    } else {
      LookupLive(m, e.id);
    }
    OwnIdsResolve(s);
    forall r | r in e.meant.args && !IsClientId(r.id) ensures !Unresolved(m, e.meant.created, r) {
      GrownLive(m.serverEntries, e.meant.created, r.id);
      LookupLive(m, r.id);
    }
  }

  lemma TidyReadEvent(s: State)
    requires Inv(s) && Tidy(s) && !s.clientError && s.events != [] && s.events[0].Event?
    requires Orderly(s, ClientRead)
    ensures Tidy(DoClientRead(s)) && !DoClientRead(s).clientError
  {
    var e := s.events[0];
    TidyNotRefused(s);
    ReadFailsIff(s);
    ReadSound(s);
    if !IsClientId(e.id) {
      LookupLive(s.client, e.id);
    }
    AlignedReadIff(s);
    ReadTakes(s);
    if !Discards(s.client, e.id) {
      DemarshalIff(s.client, e.meant.created);
    }
  }

  lemma TidyRead(s: State)
    requires Inv(s) && Tidy(s) && !s.clientError && s.events != [] && Orderly(s, ClientRead)
    ensures Tidy(DoClientRead(s)) && !DoClientRead(s).clientError
  {
    if s.events[0].Event? {
      TidyReadEvent(s);
    }
  }

  /** Destroying a proxy empties its slot. */
  function Emptied(t: ClientSlots, x: nat): ClientSlots {
    if Index(x) < |t| then t[Index(x) := Used(None, false)] else t
  }

  lemma {:induction false} PaddedAllEmptied(t: ClientSlots, created: seq<NewObject>, x: nat)
    requires Index(x) < |t|
    ensures PaddedAll(Emptied(t, x), created) == Emptied(PaddedAll(t, created), x)
    ensures |PaddedAll(t, created)| >= |t|
    decreases |created|
  {
    if created != [] {
      assert Padded(Emptied(t, x), created[0]) == Emptied(Padded(t, created[0]), x);
      PaddedAllEmptied(Padded(t, created[0]), created[1..], x);
    }
  }

  lemma {:induction false} FilledEmptied(t: ClientSlots, created: seq<NewObject>, x: nat)
    requires Index(x) < |t| && !AtIndex(created, Index(x))
    ensures Filled(Emptied(t, x), created) == Emptied(Filled(t, created), x)
    ensures |Filled(t, created)| == |t|
    decreases |created|
  {
    if created != [] {
      AtIndexRest(created, Index(x));
      assert Stored(Emptied(t, x), created[0]) == Emptied(Stored(t, created[0]), x);
      FilledEmptied(Stored(t, created[0]), created[1..], x);
    }
  }

  lemma ReadableEmptied(t: ClientSlots, e: Event, x: nat)
    requires AllPlain(t) && e.Event? && Readable(t, e) && Live(t, x).Some? && !IsClientId(x) && !NamesArg(e.meant, x)
    ensures var t' := AfterEvent(t, e);
            && Readable(Emptied(t, x), e) && AfterEvent(Emptied(t, x), e) == Emptied(t', x)
            && Live(t', x).Some? && AllPlain(t')
  {
    var created := e.meant.created;
    forall j | 0 <= j < |created| ensures Admissible(Emptied(t, x), created, j) && Index(created[j].id) != Index(x) {
      assert Admissible(t, created, j);
    }
    assert !AtIndex(created, Index(x));
    PaddedAllEmptied(t, created, x);
    FilledEmptied(PaddedAll(t, created), created, x);
    AtIndexCreates(t, created, x);
    GrownLive(t, created, x);
    forall r | r in e.meant.args && !IsClientId(r.id) ensures LiveAs(Grown(Emptied(t, x), created), r) {
      assert r.id != x && LiveAs(Grown(t, created), r);
    }
  }

  /** Without the proxy everything under way can still be read, if nothing names it. */
  lemma {:induction false} AllReadableEmptied(t: ClientSlots, es: seq<Event>, x: nat)
    requires AllPlain(t) && AllReadable(t, es) && Live(t, x).Some? && !IsClientId(x)
    requires forall k :: 0 <= k < |es| && es[k].Event? ==> !NamesArg(es[k].meant, x)
    ensures AllReadable(Emptied(t, x), es) && AfterAll(Emptied(t, x), es) == Emptied(AfterAll(t, es), x)
    decreases |es|
  {
    if es != [] {
      if es[0].Event? {
        ReadableEmptied(t, es[0], x);
      }
      assert forall k :: 0 <= k < |es[1..]| ==> es[1..][k] == es[k + 1];
      AllReadableEmptied(AfterEvent(t, es[0]), es[1..], x);
    }
  }

  lemma TidyDestroy(s: State, id: nat)
    requires Inv(s) && Tidy(s) && Orderly(s, ClientDestroy(id))
    ensures Tidy(DoClientDestroy(s, id)) && DoClientDestroy(s, id).clientError == s.clientError
  {
    var t := s.client.serverEntries;
    DestroySound(s, id);
    DestroyEmpties(s, id);
    if !IsClientId(id) && Live(t, id).Some? {
      AllReadableEmptied(t, s.events, id);
    }
  }

  lemma DestroyEmpties(s: State, id: nat)
    requires s.client.Valid() && Sound(s.client)
    ensures var s', t := DoClientDestroy(s, id), s.client.serverEntries;
            && s' == s.(client := s'.client)
            && s'.client.serverEntries
               == if !IsClientId(id) && Live(t, id).Some? && Index(id) <= MAX_OBJECTS then Emptied(t, id) else t
  {
    if !IsClientId(id) {
      LookupLive(s.client, id);
    }
  }

  lemma TidyRequest(s: State, ifaces: seq<Interface>, sendFails: bool)
    requires Inv(s) && Tidy(s)
    ensures var s' := DoRequest(s, ifaces, sendFails);
            Tidy(s') && (s'.clientError ==> s.clientError || sendFails)
  {
    CreateProxiesSound(s.client, ifaces);
  }

  lemma TidyAllocate(s: State, iface: Interface)
    requires Inv(s) && Tidy(s)
    ensures Tidy(DoAllocate(s, iface)) && DoAllocate(s, iface).clientError == s.clientError
  {
    InsertNewSound(s.client, iface);
  }

  lemma TidySendId(s: State, k: nat, sendFails: bool)
    requires Tidy(s)
    ensures var s' := DoSendId(s, k, sendFails);
            Tidy(s') && (s'.clientError ==> s.clientError || sendFails)
  {
  }

  // ----- the server's steps

  /** Nothing of the server's own ids is touched. */
  lemma TidySameServerIds(s: State, m: ObjectMap<Interface>)
    requires Tidy(s) && m.serverEntries == s.server.serverEntries
    ensures Tidy(s.(server := m))
  {
  }

  lemma TidyServerRead(s: State)
    requires Inv(s) && Tidy(s) && s.requests != []
    ensures Tidy(DoServerRead(s)) && DoServerRead(s).clientError == s.clientError
  {
    var r := ReserveNew(s.server, s.requests[0].id);
    assert Waiting(s)[0] == s.requests[0];
    assert RequestOk(s.client.clientEntries, s.server.clientEntries, s.pending, Deleting(s), s.requests[0]);
    ServerReadAdmits(s);
    if r.Ok? {
      TidySameServerIds(s, r.value);
    }
  }

  lemma TidyServerBind(s: State, id: nat)
    requires Inv(s) && Tidy(s)
    ensures Tidy(DoServerBind(s, id)) && DoServerBind(s, id).clientError == s.clientError
  {
    if id in s.pending {
      TidySameServerIds(s, StoreAt(s.server, false, id, Some(s.pending[id])));
    }
  }

  lemma TidyCreate(s: State, iface: Interface)
    requires Inv(s) && Tidy(s) && !s.serverError && Orderly(s, ServerCreate(iface))
    ensures Tidy(DoServerCreate(s, iface)) && DoServerCreate(s, iface).clientError == s.clientError
  {
    var t := s.client.serverEntries;
    var (m, id) := InsertNew(s.server, false, None);
    var m' := DoServerCreate(s, iface).server;
    InsertNewTakesUntakenId(s.server, false, None, id);
    forall x: nat | !IsClientId(x) && Lookup(m', x).Some? && Live(AfterAll(t, s.events), x).Some?
      ensures Live(AfterAll(t, s.events), x) == Lookup(m', x)
    {
      InsertNewTakesUntakenId(s.server, false, None, x);
      AfterAllLive(t, s.events, x);
      assert x != id && Lookup(m', x) == Lookup(s.server, x);
    }
  }

  /** A resource's id is in range. */
  lemma BoundInRange(m: ObjectMap<Interface>, x: nat)
    requires m.Valid() && m.side == ServerSide && !IsClientId(x) && Lookup(m, x).Some?
    ensures Index(x) <= MAX_OBJECTS
  {
  }

  lemma AnnouncedAdmissible(s: State, created: seq<NewObject>, j: nat)
    requires Inv(s) && Tidy(s) && j < |created| && Announceable(s, created, j)
    requires forall i :: 0 <= i < |created| ==> Lookup(s.server, created[i].id) == Some(created[i].iface)
    ensures Admissible(AfterAll(s.client.serverEntries, s.events), created, j)
  {
    var t, x := s.client.serverEntries, created[j].id;
    var t' := AfterAll(t, s.events);
    BoundInRange(s.server, x);
    AfterAllLive(t, s.events, x);
    assert Empty(t', x) by {
      assert Index(x) < |t'| ==> Plain(t'[Index(x)]);
    }
    forall i | |t'| <= i < Index(x) ensures AtIndex(created[..j], i) {
      var y := SERVER_ID_START + i;
      AfterAllLive(t, s.events, y);
      assert Index(y) == i && Creates(created[..j], y);
      var k :| 0 <= k < |created[..j]| && created[..j][k].id == y;
      assert Index(created[..j][k].id) == i;
    }
  }

  /** The event that the server posts can be read after all those under way. */
  lemma PostedReadable(s: State, e: Event)
    requires Inv(s) && Tidy(s) && e.Event? && Lookup(s.server, e.id) == Some(e.sender) && Exist(s.server, e.meant)
    requires Sayable(s, e.meant)
    ensures Readable(AfterAll(s.client.serverEntries, s.events), e)
  {
    var t, created := s.client.serverEntries, e.meant.created;
    var t' := AfterAll(t, s.events);
    AfterAllLive(t, s.events, SERVER_ID_START);
    forall j | 0 <= j < |created| ensures Admissible(t', created, j) {
      AnnouncedAdmissible(s, created, j);
    }
    PostedAgree(s.server, t', created);
    forall r | r in e.meant.args && !IsClientId(r.id) ensures LiveAs(Grown(t', created), r) {
      AfterAllLive(t, s.events, r.id);
      GrownLive(t', created, r.id);
      assert Live(Grown(t', created), r.id) == Lookup(s.server, r.id);
    }
  }

  /** And afterwards the client's proxies agree with the server's objects. */
  lemma PostedAgree(m: ObjectMap<Interface>, t: ClientSlots, created: seq<NewObject>)
    requires AllPlain(t) && Agree(m, t) && AllAdmissible(t, created)
    requires forall i :: 0 <= i < |created| ==> Lookup(m, created[i].id) == Some(created[i].iface)
    ensures Agree(m, Grown(t, created))
  {
    forall x: nat | !IsClientId(x) && Lookup(m, x).Some? && Live(Grown(t, created), x).Some?
      ensures Live(Grown(t, created), x) == Lookup(m, x)
    {
      GrownLive(t, created, x);
    }
  }

  lemma TidyPost(s: State, id: nat, opcode: nat, words: seq<Word>)
    requires Inv(s) && Tidy(s) && !s.serverError && Orderly(s, ServerEvent(id, opcode, words))
    ensures var s' := DoServerEvent(s, id, opcode, words);
            Tidy(s') && s'.clientError == s.clientError
  {
    var p := Posted(s.types, s.server, id, opcode, words);
    if p.Some? {
      var t, iface := s.client.serverEntries, Lookup(s.server, id).value;
      var e := Event(id, opcode, words, FreshFds(s.nextFd, CountFds(iface.events[opcode])), iface, p.value);
      PostedReadable(s, e);
      AfterAllAppend(t, s.events, e);
      AfterAllLive(t, s.events, SERVER_ID_START);
      PostedAgree(s.server, AfterAll(t, s.events), p.value.created);
    }
  }

  lemma TidyServerDestroy(s: State, id: nat)
    requires Inv(s) && Tidy(s)
    ensures Tidy(DoServerDestroy(s, id)) && DoServerDestroy(s, id).clientError == s.clientError
  {
    if id != 1 && Lookup(s.server, id).Some? {
      if IsClientId(id) {
        AfterAllAppend(s.client.serverEntries, s.events, DeleteId(id));
      } else {
        forall x: nat | x != id ensures Lookup(Remove(s.server, id), x) == Lookup(s.server, x) {
          RemoveFreesForReuse(s.server, id, false, None, x);
        }
      }
    }
  }

  lemma TidyDispatch(s: State)
    requires Inv(s) && Tidy(s) && s.deletions != []
    ensures Tidy(DoClientDispatch(s)) && DoClientDispatch(s).clientError == s.clientError
  {
    DispatchSound(s);
  }

  lemma TidyClientStep(s: State, a: Action)
    requires Inv(s) && Tidy(s) && Orderly(s, a)
    requires a.Request? || a.Allocate? || a.SendId? || a.ClientDestroy? || a.ClientRead? || a.ClientDispatch?
             || a.ClientFail?
    ensures Tidy(Step(s, a)) && (Step(s, a).clientError ==> s.clientError || LocalFailure(a))
  {
    match a {
      case Request(ifaces, sendFails) => TidyRequest(s, ifaces, sendFails);
      case Allocate(iface) => TidyAllocate(s, iface);
      case SendId(k, sendFails) => TidySendId(s, k, sendFails);
      case ClientDestroy(id) => TidyDestroy(s, id);
      case ClientRead => if !s.clientError && s.events != [] { TidyRead(s); }
      case ClientDispatch => if s.deletions != [] { TidyDispatch(s); }
      case ClientFail =>
    }
  }

  lemma TidyServerStep(s: State, a: Action)
    requires Inv(s) && Tidy(s) && Orderly(s, a)
    requires a.ServerRead? || a.ServerBind? || a.ServerCreate? || a.ServerEvent? || a.ServerDestroy? || a.ServerFail?
    ensures Tidy(Step(s, a)) && (Step(s, a).clientError ==> s.clientError)
  {
    match a {
      case ServerRead => if s.requests != [] { TidyServerRead(s); }
      case ServerBind(id) => TidyServerBind(s, id);
      case ServerCreate(iface) => if !s.serverError { TidyCreate(s, iface); }
      case ServerEvent(id, opcode, words) => if !s.serverError { TidyPost(s, id, opcode, words); }
      case ServerDestroy(id) => TidyServerDestroy(s, id);
      case ServerFail =>
    }
  }

  lemma TidyStep(s: State, a: Action)
    requires Inv(s) && Tidy(s) && Orderly(s, a)
    ensures Tidy(Step(s, a)) && (Step(s, a).clientError ==> s.clientError || LocalFailure(a))
  {
    if a.ServerRead? || a.ServerBind? || a.ServerCreate? || a.ServerEvent? || a.ServerDestroy? || a.ServerFail? {
      TidyServerStep(s, a);
    } else {
      TidyClientStep(s, a);
    }
  }

  predicate LocalFailure(a: Action) {
    a.ClientFail? || ((a.Request? || a.SendId?) && a.sendFails)
  }

  lemma InitTidy(protocol: Protocol)
    ensures Tidy(Init(protocol))
  {
  }

  /** Every step of the run keeps to the rules for server ids. */
  ghost predicate OrderlyRun(protocol: Protocol, actions: seq<Action>)
    decreases |actions|
  {
    actions == [] ||
    var n := |actions| - 1;
    OrderlyRun(protocol, actions[..n]) && Orderly(Run(protocol, actions[..n]), actions[n])
  }

  ghost predicate FailedLocally(actions: seq<Action>) {
    exists i :: 0 <= i < |actions| && LocalFailure(actions[i])
  }

  /** If every step of a run keeps to the rules for server ids, the client never refuses an
      event and never loses step with the fd stream, whoever allocates the ids: its
      display fails only for reasons of its own. */
  lemma OrderlyRunsAreSound(protocol: Protocol, actions: seq<Action>)
    requires OrderlyRun(protocol, actions)
    ensures var s := Run(protocol, actions);
            && Tidy(s) && s.aligned && s.taken == s.carried && s.fdStream == AllFds(s.events)
            && (s.clientError ==> FailedLocally(actions))
  {
    OrderlyRunsAreTidy(protocol, actions);
    RunInv(protocol, actions);
  }

  lemma {:induction false} OrderlyRunsAreTidy(protocol: Protocol, actions: seq<Action>)
    requires OrderlyRun(protocol, actions)
    ensures Tidy(Run(protocol, actions)) && (Run(protocol, actions).clientError ==> FailedLocally(actions))
    decreases |actions|
  {
    if actions == [] {
      InitTidy(protocol);
    } else {
      var n := |actions| - 1;
      OrderlyRunsAreTidy(protocol, actions[..n]);
      RunInv(protocol, actions[..n]);
      TidyStep(Run(protocol, actions[..n]), actions[n]);
    }
  }

  // ------------------------------------------ runs in which only the client allocates

  /** The step creates no object of the server's own and announces none. */
  predicate LeavesIdsToClient(s: State, a: Action) {
    match a
    case ServerCreate(_) => false
    case ServerEvent(id, opcode, words) =>
      var p := Posted(s.types, s.server, id, opcode, words);
      p.Some? ==> p.value.created == []
    case _ => true
  }

  /** A run in which the server creates no object of its own and announces none. */
  ghost predicate ClientIdsOnly(protocol: Protocol, actions: seq<Action>)
    decreases |actions|
  {
    actions == [] ||
    var n := |actions| - 1;
    ClientIdsOnly(protocol, actions[..n]) && LeavesIdsToClient(Run(protocol, actions[..n]), actions[n])
  }

  ghost predicate NoServerIds(s: State) {
    && s.server.serverEntries == [] && s.client.serverEntries == []
    && forall k :: 0 <= k < |s.events| && s.events[k].Event? ==> NamesClientIdsOnly(s.events[k])
  }

  lemma NoServerIdsRead(s: State)
    requires Inv(s) && Sound(s.client) && NoServerIds(s) && s.events != []
    ensures NoServerIds(DoClientRead(s))
  {
    if s.events[0].Event? {
      NoServerIdsReadEvent(s);
    } else {
      NoServerIdsAfter(s, s.(events := s.events[1..], deletions := s.deletions + [s.events[0].deleted]));
    }
  }

  lemma NoServerIdsAfter(s: State, s': State)
    requires NoServerIds(s) && s'.server == s.server && s'.client == s.client && s.events != []
    requires s'.events == s.events || s'.events == s.events[1..]
    ensures NoServerIds(s')
  {
    forall k | 0 <= k < |s.events| - 1 && s.events[1..][k].Event? ensures NamesClientIdsOnly(s.events[1..][k]) {
      assert s.events[1..][k] == s.events[k + 1];
    }
  }

  lemma NoServerIdsReadEvent(s: State)
    requires Inv(s) && NoServerIds(s) && s.events != [] && s.events[0].Event?
    ensures NoServerIds(DoClientRead(s))
  {
    var e, p := s.events[0], Lookup(s.client, s.events[0].id);
    assert NamesClientIdsOnly(e);
    ClientIdSender(s);
    if p.None? || IsZombie(s.client, e.id) {
      NoServerIdsAfter(s, Take(s.(events := s.events[1..]), DiscardFds(s.client, e.id, e.opcode), e));
    } else {
      NothingCreated(s, e.sender.events[e.opcode]);
      NoServerIdsAfter(s, DoReadEvent(s, e.sender.events[e.opcode]));
    }
  }

  /** An event without new objects leaves the map as it is. */
  lemma NothingCreated(s: State, params: seq<Param>)
    requires s.events != [] && s.events[0].Event?
    requires var p := ReadPayload(s.types, params, s.events[0].words); p.Some? ==> p.value.created == []
    ensures var s' := DoReadEvent(s, params);
            s'.server == s.server && s'.client == s.client && (s'.events == s.events || s'.events == s.events[1..])
  {
  }

  lemma NoServerIdsRequest(s: State, ifaces: seq<Interface>, sendFails: bool)
    requires s.client.Valid() && Sound(s.client) && NoServerIds(s)
    ensures NoServerIds(DoRequest(s, ifaces, sendFails))
  {
    CreateProxiesSound(s.client, ifaces);
  }

  lemma NoServerIdsDestroy(s: State, id: nat)
    requires s.client.Valid() && s.client.side == ClientSide && NoServerIds(s)
    ensures NoServerIds(DoClientDestroy(s, id))
  {
  }

  /** What exists without server ids has a client id. */
  lemma PostedOwnIds(s: State, id: nat, opcode: nat, words: seq<Word>)
    requires s.server.serverEntries == [] && Posted(s.types, s.server, id, opcode, words).Some?
    ensures IsClientId(id)
    ensures forall r :: r in Posted(s.types, s.server, id, opcode, words).value.args ==> IsClientId(r.id)
  {
    var p := Posted(s.types, s.server, id, opcode, words).value;
    forall r | r in p.args ensures IsClientId(r.id) {
      var j :| 0 <= j < |p.args| && p.args[j] == r;
      assert p.args[j].id == 0 || Lookup(s.server, p.args[j].id).Some?;
    }
  }

  lemma NoServerIdsPost(s: State, id: nat, opcode: nat, words: seq<Word>)
    requires NoServerIds(s) && LeavesIdsToClient(s, ServerEvent(id, opcode, words))
    ensures NoServerIds(DoServerEvent(s, id, opcode, words))
  {
    if Posted(s.types, s.server, id, opcode, words).Some? {
      PostedOwnIds(s, id, opcode, words);
    }
  }

  lemma NoServerIdsReserve(s: State)
    requires Inv(s) && NoServerIds(s) && s.requests != []
    ensures NoServerIds(DoServerRead(s))
  {
    assert Waiting(s)[0] == s.requests[0];
    assert RequestOk(s.client.clientEntries, s.server.clientEntries, s.pending, Deleting(s), s.requests[0]);
    ServerReadAdmits(s);
  }

  lemma NoServerIdsServer(s: State, a: Action)
    requires s.server.Valid() && s.client.Valid() && s.server.side == ServerSide && NoServerIds(s)
    requires a.ServerBind? || a.ServerDestroy?
    requires forall id :: id in s.pending ==> IsClientId(id)
    ensures NoServerIds(Step(s, a))
  {
  }

  lemma NoServerIdsSendId(s: State, k: nat, sendFails: bool)
    requires NoServerIds(s)
    ensures NoServerIds(DoSendId(s, k, sendFails))
  {
  }

  lemma NoServerIdsDispatch(s: State)
    requires Inv(s) && Sound(s.client) && NoServerIds(s) && s.deletions != []
    ensures NoServerIds(DoClientDispatch(s))
  {
    DispatchSound(s);
  }

  lemma NoServerIdsClientStep(s: State, a: Action)
    requires Inv(s) && Sound(s.client) && NoServerIds(s)
    requires a.Request? || a.Allocate? || a.SendId? || a.ClientDestroy? || a.ClientRead? || a.ClientDispatch?
    ensures NoServerIds(Step(s, a))
  {
    match a {
      case Request(ifaces, sendFails) => NoServerIdsRequest(s, ifaces, sendFails);
      case Allocate(iface) => InsertNewSound(s.client, iface);
      case SendId(k, sendFails) => NoServerIdsSendId(s, k, sendFails);
      case ClientDestroy(id) => NoServerIdsDestroy(s, id);
      case ClientRead => if !s.clientError && s.events != [] { NoServerIdsRead(s); }
      case ClientDispatch => if s.deletions != [] { NoServerIdsDispatch(s); }
    }
  }

  lemma NoServerIdsStep(s: State, a: Action)
    requires Inv(s) && Sound(s.client) && NoServerIds(s) && LeavesIdsToClient(s, a)
    ensures NoServerIds(Step(s, a))
  {
    if a.ServerEvent? {
      NoServerIdsPost(s, a.id, a.opcode, a.words);
    } else if a.ServerRead? {
      if s.requests != [] {
        NoServerIdsReserve(s);
      }
    } else if a.ServerBind? || a.ServerDestroy? {
      NoServerIdsServer(s, a);
    } else if !a.ClientFail? && !a.ServerFail? {
      NoServerIdsClientStep(s, a);
    }
  }

  lemma NoServerIdsOrderly(s: State, a: Action)
    requires Inv(s) && NoServerIds(s) && LeavesIdsToClient(s, a)
    ensures Orderly(s, a)
  {
    if a.ServerEvent? && Posted(s.types, s.server, a.id, a.opcode, a.words).Some? {
      PostedOwnIds(s, a.id, a.opcode, a.words);
    } else if a.ClientRead? && s.events != [] && s.events[0].Event? {
      assert NamesClientIdsOnly(s.events[0]);
    } else if a.ClientDestroy? {
      forall k | 0 <= k < |s.events| && s.events[k].Event? && NamesArg(s.events[k].meant, a.id)
        ensures IsClientId(a.id)
      {
        assert NamesClientIdsOnly(s.events[k]);
        var j :| 0 <= j < |s.events[k].meant.args| && s.events[k].meant.args[j].id == a.id;
        assert s.events[k].meant.args[j] in s.events[k].meant.args;
      }
    }
  }

  lemma {:induction false} ClientIdRunsAreOrderly(protocol: Protocol, actions: seq<Action>)
    requires ClientIdsOnly(protocol, actions)
    ensures OrderlyRun(protocol, actions) && NoServerIds(Run(protocol, actions))
    decreases |actions|
  {
    if actions != [] {
      var n := |actions| - 1;
      ClientIdRunsAreOrderly(protocol, actions[..n]);
      RunInv(protocol, actions[..n]);
      RunSound(protocol, actions[..n]);
      NoServerIdsOrderly(Run(protocol, actions[..n]), actions[n]);
      NoServerIdsStep(Run(protocol, actions[..n]), actions[n]);
    }
  }

  /** If only the client allocates ids, no run makes the client refuse an event or lose
      step with the fd stream: its display fails only for reasons of its own. */
  lemma ClientIdRunsAreSound(protocol: Protocol, actions: seq<Action>)
    requires ClientIdsOnly(protocol, actions)
    ensures var s := Run(protocol, actions);
            && NoServerIds(s) && s.aligned && s.taken == s.carried && s.fdStream == AllFds(s.events)
            && (s.clientError ==> FailedLocally(actions))
  {
    ClientIdRunsAreOrderly(protocol, actions);
    OrderlyRunsAreSound(protocol, actions);
  }

  // -------------------------------------------------------- runs that go wrong

  /** s' is s after one step. */
  ghost predicate Follows(s: State, a: Action, s': State) {
    MapsOk(s) && FdsOk(s) && s' == Step(s, a)
  }

  lemma RunOne(protocol: Protocol, r: seq<Action>, a: Action) returns (s1: State)
    ensures Follows(Run(protocol, r), a, s1) && s1 == Run(protocol, r + [a])
  {
    s1 := Run(protocol, r + [a]);
    RunExtend(protocol, r, a);
  }

  /** In every reachable state, an id of the server that is destroyed is at once given to
      the next object it creates, and nothing is sent that would tell the client. */
  lemma ServerIdIsReusedAtOnce(protocol: Protocol, actions: seq<Action>, id: nat, iface: Interface, x: nat)
    requires var s := Run(protocol, actions);
             !s.serverError && !IsClientId(id) && Lookup(s.server, id).Some?
    ensures var s, s' := Run(protocol, actions), Run(protocol, actions + [ServerDestroy(id)] + [ServerCreate(iface)]);
            && Lookup(s'.server, id) == Some(iface) && (x != id ==> Lookup(s'.server, x) == Lookup(s.server, x))
            && s'.events == s.events && s'.client == s.client
  {
    var s1 := RunOne(protocol, actions, ServerDestroy(id));
    var s2 := RunOne(protocol, actions + [ServerDestroy(id)], ServerCreate(iface));
    RecreatedUnderSameId(Run(protocol, actions), s1, s2, id, iface, x);
  }

  lemma RecreatedUnderSameId(s: State, s1: State, s2: State, id: nat, iface: Interface, x: nat)
    requires Follows(s, ServerDestroy(id), s1) && Follows(s1, ServerCreate(iface), s2)
    requires !s.serverError && !IsClientId(id) && Lookup(s.server, id).Some?
    ensures Lookup(s2.server, id) == Some(iface) && (x != id ==> Lookup(s2.server, x) == Lookup(s.server, x))
    ensures s2.events == s.events && s2.client == s.client
  {
    BoundInRange(s.server, id);
    assert s1.server == Remove(s.server, id);
    RemoveFreesForReuse(s.server, id, false, None, x);
    StoredLast(s.server, s2.server, id, iface, x);
  }

  lemma StoredLast(m: ObjectMap<Interface>, m': ObjectMap<Interface>, id: nat, iface: Interface, x: nat)
    requires Taken(m, id) && Index(id) <= MAX_OBJECTS
    requires m' == StoreAt(InsertAt(m, false, id, None).value, false, id, Some(iface))
    ensures Lookup(m', id) == Some(iface) && (x != id ==> Lookup(m', x) == Lookup(m, x))
  {
  }

  const DISPLAY := Interface("display", [[NewParam("object")], [ObjectParam(false, Some("other"))]])
  const OBJECT := Interface("object", [[FdParam], [NewParam("object")]])
  const OTHER := Interface("other", [[FdParam, FdParam]])
  const TYPES: Types := name => if name == "other" then OTHER else OBJECT
  const PROTOCOL := Protocol(DISPLAY, TYPES)
  const X0 := SERVER_ID_START
  const X1 := SERVER_ID_START + 1
  const X2 := SERVER_ID_START + 2

  /** The server creates an object and announces it, and the client reads that. */
  const SETUP: seq<Action> := [] + [ServerCreate(OBJECT)] + [ServerEvent(1, 0, [X0])] + [ClientRead]

  /** The client destroys its proxy, and the server posts an event with an fd on its object. */
  const LEAK := SETUP + [ClientDestroy(X0)] + [ServerEvent(X0, 0, [])] + [ClientRead]

  /** The server destroys its object and creates another one under the same id, whose events
      carry more fds. */
  const STALE := SETUP + [ServerDestroy(X0)] + [ServerCreate(OTHER)] + [ServerEvent(X0, 0, [])] + [ClientRead]

  /** The server names the other object, under the same id, where the client's proxy is of
      the wrong interface. */
  const STALE_ARGUMENT := SETUP + [ServerDestroy(X0)] + [ServerCreate(OTHER)] + [ServerEvent(1, 1, [X0])] + [ClientRead]

  /** The client destroys its proxy, and so does not hear of the next object, which the server
      announces on the object behind it; then the one after that is announced. */
  const UNHEARD := SETUP + [ClientDestroy(X0)] + [ServerCreate(OBJECT)] + [ServerEvent(X0, 1, [X1])] + [ClientRead]
  const GAP := UNHEARD + [ServerCreate(OBJECT)] + [ServerEvent(1, 0, [X2])] + [ClientRead]

  /** The part of a state that these runs depend on. */
  ghost predicate At(s: State, client: ClientSlots, server: ServerSlots, free: seq<nat>, events: seq<Event>) {
    && s.client.serverEntries == client && s.server.serverEntries == server && s.server.free == free
    && s.events == events && s.aligned && !s.clientError && !s.serverError && s.types == TYPES
    && s.client.side.ClientSide? && s.server.side.ServerSide?
    && |s.client.clientEntries| == 2 && s.client.clientEntries[1] == Used(Some(Proxy(DISPLAY, false)), false)
    && |s.server.clientEntries| == 2 && s.server.clientEntries[1] == Used(Some(DISPLAY), false)
  }

  function Held(iface: Interface): Slot<ClientEntry> { Used(Some(Proxy(iface, false)), false) }

  function Bound(iface: Interface): Slot<Interface> { Used(Some(iface), false) }

  lemma AtCreate(s: State, s': State, c: ClientSlots, v: ServerSlots, free: seq<nat>, iface: Interface)
    requires Follows(s, ServerCreate(iface), s') && At(s, c, v, free, []) && |v| <= 2
    requires free == [] || (|free| == 1 && free[0] < |v|)
    ensures At(s', c, if free == [] then v + [Bound(iface)] else v[free[0] := Bound(iface)], [], [])
  {
  }

  /** An event on the way, with as many fds as its sender's interface says. */
  predicate Carries(s: State, id: nat, opcode: nat, words: seq<Word>, n: nat, meant: Payload) {
    && |s.events| == 1 && s.events[0].Event? && s.events[0].id == id && s.events[0].opcode == opcode
    && s.events[0].words == words && |s.events[0].fds| == n && s.events[0].meant == meant
  }

  lemma AtPost(s: State, s': State, c: ClientSlots, v: ServerSlots, id: nat, opcode: nat, words: seq<Word>, p: Payload)
    requires At(s, c, v, [], []) && Posted(TYPES, s.server, id, opcode, words) == Some(p)
    requires Follows(s, ServerEvent(id, opcode, words), s')
    ensures At(s', c, v, [], s'.events)
    ensures Carries(s', id, opcode, words, CountFds(Lookup(s.server, id).value.events[opcode]), p)
  {
  }

  lemma ReadNothing(types: Types)
    ensures ReadParams(types, [], []) == Some(Payload([], [])) && CountFds([]) == 0
  {
  }

  /** Reading a single new id. */
  lemma ReadNew(types: Types, iface: Name, w: Word)
    requires w != 0
    ensures ReadPayload(types, [NewParam(iface)], [w]) == Some(Payload([], [NewObject(w, types(iface))]))
    ensures CountFds([NewParam(iface)]) == 0
  {
    ReadNothing(types);
    assert [NewParam(iface)][1..] == [] && [w][1..] == [];
    assert [NewObject(w, types(iface))] + [] == [NewObject(w, types(iface))];
  }

  /** Reading a single argument, or one or two fds. */
  lemma ReadArg(types: Types, wanted: Option<Name>, w: Word)
    requires w != 0
    ensures ReadPayload(types, [ObjectParam(false, wanted)], [w]) == Some(Payload([ObjectRef(w, wanted)], []))
    ensures CountFds([ObjectParam(false, wanted)]) == 0
  {
    ReadNothing(types);
    assert [ObjectParam(false, wanted)][1..] == [] && [w][1..] == [];
    assert [ObjectRef(w, wanted)] + [] == [ObjectRef(w, wanted)];
  }

  lemma ReadFds(types: Types)
    ensures ReadPayload(types, [FdParam], []) == Some(Payload([], [])) && CountFds([FdParam]) == 1
    ensures ReadPayload(types, [FdParam, FdParam], []) == Some(Payload([], [])) && CountFds([FdParam, FdParam]) == 2
  {
    assert [FdParam][1..] == [] && [FdParam, FdParam][1..] == [FdParam];
  }

  lemma NamedTypes()
    ensures TYPES("object") == OBJECT && TYPES("other") == OTHER
  {
    assert |"object"| != |"other"|;
  }

  /** Announcing an object. */
  lemma AtAnnounce(s: State, s': State, c: ClientSlots, v: ServerSlots, id: nat, opcode: nat, x: Word)
    requires At(s, c, v, [], []) && Lookup(s.server, id).Some? && opcode < |Lookup(s.server, id).value.events|
    requires Lookup(s.server, id).value.events[opcode] == [NewParam("object")]
    requires x != 0 && Lookup(s.server, x) == Some(OBJECT)
    requires Follows(s, ServerEvent(id, opcode, [x]), s')
    ensures At(s', c, v, [], s'.events) && Carries(s', id, opcode, [x], 0, Payload([], [NewObject(x, OBJECT)]))
  {
    ReadNew(TYPES, "object", x);
    NamedTypes();
    AtPost(s, s', c, v, id, opcode, [x], Payload([], [NewObject(x, OBJECT)]));
  }

  /** A run that goes on for three steps. */
  lemma RunThree(r: seq<Action>, a: Action, b: Action, c: Action) returns (s1: State, s2: State, s3: State)
    ensures Follows(Run(PROTOCOL, r), a, s1) && Follows(s1, b, s2) && Follows(s2, c, s3)
    ensures s1 == Run(PROTOCOL, r + [a]) && s2 == Run(PROTOCOL, r + [a] + [b])
    ensures s3 == Run(PROTOCOL, r + [a] + [b] + [c])
  {
    s1, s2 := Run(PROTOCOL, r + [a]), Run(PROTOCOL, r + [a] + [b]);
    s3 := Run(PROTOCOL, r + [a] + [b] + [c]);
    RunExtend(PROTOCOL, r, a);
    RunExtend(PROTOCOL, r + [a], b);
    RunExtend(PROTOCOL, r + [a] + [b], c);
  }

  /** Setting up: the client holds a proxy of the server's object. */
  lemma AfterSetup()
    ensures At(Run(PROTOCOL, SETUP), [Held(OBJECT)], [Bound(OBJECT)], [], [])
  {
    var s1, s2, s3 := RunThree([], ServerCreate(OBJECT), ServerEvent(1, 0, [X0]), ClientRead);
    AtCreate(Init(PROTOCOL), s1, [], [], [], OBJECT);
    FirstAnnounced(s1, s2, s3);
  }

  /** The server may create objects: setting up keeps to the rules. */
  lemma SetupIsOrderly()
    ensures OrderlyRun(PROTOCOL, SETUP)
  {
    var s1, s2, s3 := RunThree([], ServerCreate(OBJECT), ServerEvent(1, 0, [X0]), ClientRead);
    SetupSteps(s1, s2);
    OrderlyThree([], ServerCreate(OBJECT), ServerEvent(1, 0, [X0]), ClientRead, s1, s2);
  }

  lemma SetupSteps(s1: State, s2: State)
    requires Follows(Init(PROTOCOL), ServerCreate(OBJECT), s1) && Follows(s1, ServerEvent(1, 0, [X0]), s2)
    ensures Orderly(Init(PROTOCOL), ServerCreate(OBJECT)) && Orderly(s1, ServerEvent(1, 0, [X0]))
    ensures Orderly(s2, ClientRead)
  {
    OrderlyFirst(Init(PROTOCOL));
    AtCreate(Init(PROTOCOL), s1, [], [], [], OBJECT);
    OrderlyAnnounce(s1);
    OrderlyRead(s1, s2);
  }

  lemma OrderlyFirst(s: State)
    requires s.client.serverEntries == [] && s.events == []
    ensures Orderly(s, ServerCreate(OBJECT))
  {
  }

  lemma OrderlyThree(r: seq<Action>, a: Action, b: Action, c: Action, s1: State, s2: State)
    requires OrderlyRun(PROTOCOL, r) && s1 == Run(PROTOCOL, r + [a]) && s2 == Run(PROTOCOL, r + [a] + [b])
    requires Orderly(Run(PROTOCOL, r), a) && Orderly(s1, b) && Orderly(s2, c)
    ensures OrderlyRun(PROTOCOL, r + [a] + [b] + [c])
  {
    OrderlyExtend(r, a);
    OrderlyExtend(r + [a], b);
    OrderlyExtend(r + [a] + [b], c);
  }

  lemma OrderlyExtend(r: seq<Action>, a: Action)
    requires OrderlyRun(PROTOCOL, r) && Orderly(Run(PROTOCOL, r), a)
    ensures OrderlyRun(PROTOCOL, r + [a])
  {
    assert (r + [a])[..|r|] == r;
  }

  lemma OrderlyAnnounce(s: State)
    requires At(s, [], [Bound(OBJECT)], [], [])
    ensures Orderly(s, ServerEvent(1, 0, [X0]))
  {
    ReadNew(TYPES, "object", X0);
    NamedTypes();
    assert Announceable(s, [NewObject(X0, OBJECT)], 0);
  }

  lemma OrderlyRead(s1: State, s2: State)
    requires At(s1, [], [Bound(OBJECT)], [], []) && Follows(s1, ServerEvent(1, 0, [X0]), s2)
    ensures Orderly(s2, ClientRead)
  {
    AtAnnounce(s1, s2, [], [Bound(OBJECT)], 1, 0, X0);
  }

  lemma FirstAnnounced(s1: State, s2: State, s3: State)
    requires At(s1, [], [Bound(OBJECT)], [], [])
    requires Follows(s1, ServerEvent(1, 0, [X0]), s2) && Follows(s2, ClientRead, s3)
    ensures At(s3, [Held(OBJECT)], [Bound(OBJECT)], [], [])
  {
    AtAnnounce(s1, s2, [], [Bound(OBJECT)], 1, 0, X0);
    ReadAnnouncement(s2);
  }

  lemma ReadAnnouncement(s: State)
    requires MapsOk(s) && At(s, [], [Bound(OBJECT)], [], s.events)
    requires Carries(s, 1, 0, [X0], 0, Payload([], [NewObject(X0, OBJECT)]))
    ensures At(Step(s, ClientRead), [Held(OBJECT)], [Bound(OBJECT)], [], [])
  {
    ReadNew(TYPES, "object", X0);
    NamedTypes();
    FirstDemarshalled(s.client, NewObject(X0, OBJECT));
    assert s.events == [s.events[0]];
  }

  lemma FirstDemarshalled(m: ObjectMap<ClientEntry>, o: NewObject)
    requires m.side == ClientSide && m.serverEntries == [] && o.id == X0
    ensures Demarshal(m, [o]) == Ok(m.(serverEntries := [Held(o.iface)]))
  {
    var none: Slot<ClientEntry> := Used(None, false);
    assert [o][1..] == [] && m.serverEntries + [none] == [none];
    assert ReserveAll(m, [o]) == Ok(m.(serverEntries := [none]));
    assert [none][0 := Held(o.iface)] == [Held(o.iface)];
    var m1, m2 := m.(serverEntries := [none]), m.(serverEntries := [Held(o.iface)]);
    assert InsertAt(m1, false, o.id, Some(Proxy(o.iface, false))) == Ok(m2);
    assert CreateAll(m2, [o][1..]) == Ok(m2);
  }

  /** After setting up and the destruction of the proxy. */
  lemma AfterDestroy()
    ensures At(Run(PROTOCOL, SETUP + [ClientDestroy(X0)]), [Used(None, false)], [Bound(OBJECT)], [], [])
  {
    AfterSetup();
    var s1 := RunOne(PROTOCOL, SETUP, ClientDestroy(X0));
    ProxyDestroyed(Run(PROTOCOL, SETUP), s1);
  }

  lemma ProxyDestroyed(s: State, s1: State)
    requires At(s, [Held(OBJECT)], [Bound(OBJECT)], [], []) && Follows(s, ClientDestroy(X0), s1)
    ensures At(s1, [Used(None, false)], [Bound(OBJECT)], [], [])
  {
  }

  /** The client loses step with the fd stream by discarding an event with an fd. */
  lemma DiscardedFdLeaks()
    ensures !Run(PROTOCOL, LEAK).aligned
  {
    AfterSetup();
    var s1, s2, s3 := RunThree(SETUP, ClientDestroy(X0), ServerEvent(X0, 0, []), ClientRead);
    ProxyDestroyed(Run(PROTOCOL, SETUP), s1);
    DiscardLeaks(s1, s2, s3);
  }

  lemma DiscardLeaks(s1: State, s2: State, s3: State)
    requires At(s1, [Used(None, false)], [Bound(OBJECT)], [], [])
    requires Follows(s1, ServerEvent(X0, 0, []), s2) && Follows(s2, ClientRead, s3)
    ensures !s3.aligned
  {
    ReadFds(TYPES);
    AtPost(s1, s2, [Used(None, false)], [Bound(OBJECT)], X0, 0, [], Payload([], []));
  }

  /** The client loses step with the fd stream by reading an event through the proxy of an
      earlier object under the same id, and discards nothing. */
  lemma StaleProxyMisaligns()
    ensures !Run(PROTOCOL, STALE).aligned && !Run(PROTOCOL, STALE).clientError
  {
    AfterSetup();
    var s0 := RunOne(PROTOCOL, SETUP, ServerDestroy(X0));
    ObjectDestroyed(Run(PROTOCOL, SETUP), s0);
    StaleFrom(SETUP + [ServerDestroy(X0)]);
  }

  lemma ObjectDestroyed(s: State, s1: State)
    requires At(s, [Held(OBJECT)], [Bound(OBJECT)], [], []) && Follows(s, ServerDestroy(X0), s1)
    ensures At(s1, [Held(OBJECT)], [Free], [0], [])
  {
  }

  lemma StaleFrom(r: seq<Action>)
    requires At(Run(PROTOCOL, r), [Held(OBJECT)], [Free], [0], [])
    ensures var s := Run(PROTOCOL, r + [ServerCreate(OTHER)] + [ServerEvent(X0, 0, [])] + [ClientRead]);
            !s.aligned && !s.clientError
  {
    var s1, s2, s3 := RunThree(r, ServerCreate(OTHER), ServerEvent(X0, 0, []), ClientRead);
    StaleRead(Run(PROTOCOL, r), s1, s2, s3);
  }

  lemma StaleRead(s: State, s1: State, s2: State, s3: State)
    requires At(s, [Held(OBJECT)], [Free], [0], []) && Follows(s, ServerCreate(OTHER), s1)
    requires Follows(s1, ServerEvent(X0, 0, []), s2) && Follows(s2, ClientRead, s3)
    ensures !s3.aligned && !s3.clientError
  {
    AtCreate(s, s1, [Held(OBJECT)], [Free], [0], OTHER);
    ReadFds(TYPES);
    AtPost(s1, s2, [Held(OBJECT)], [Bound(OTHER)], X0, 0, [], Payload([], []));
    StaleTakes(s2);
  }

  lemma StaleTakes(s: State)
    requires MapsOk(s) && FdsOk(s) && At(s, [Held(OBJECT)], [Bound(OTHER)], [], s.events)
    requires Carries(s, X0, 0, [], 2, Payload([], []))
    ensures !Step(s, ClientRead).aligned && !Step(s, ClientRead).clientError
  {
    ReadFds(TYPES);
    assert s.fdStream == s.events[0].fds + AllFds(s.events[1..]);
    assert Demarshal(s.client, []) == Ok(s.client);
  }

  /** The client refuses an event that names an object for which it still has the proxy of an
      earlier one of another interface. */
  lemma StaleArgumentIsRefused()
    ensures Run(PROTOCOL, STALE_ARGUMENT).clientError
  {
    AfterSetup();
    var s0 := RunOne(PROTOCOL, SETUP, ServerDestroy(X0));
    ObjectDestroyed(Run(PROTOCOL, SETUP), s0);
    StaleArgumentFrom(SETUP + [ServerDestroy(X0)]);
  }

  lemma StaleArgumentFrom(r: seq<Action>)
    requires At(Run(PROTOCOL, r), [Held(OBJECT)], [Free], [0], [])
    ensures Run(PROTOCOL, r + [ServerCreate(OTHER)] + [ServerEvent(1, 1, [X0])] + [ClientRead]).clientError
  {
    var s1, s2, s3 := RunThree(r, ServerCreate(OTHER), ServerEvent(1, 1, [X0]), ClientRead);
    StaleArgumentRead(Run(PROTOCOL, r), s1, s2, s3);
  }

  lemma StaleArgumentRead(s: State, s1: State, s2: State, s3: State)
    requires At(s, [Held(OBJECT)], [Free], [0], []) && Follows(s, ServerCreate(OTHER), s1)
    requires Follows(s1, ServerEvent(1, 1, [X0]), s2) && Follows(s2, ClientRead, s3)
    ensures s3.clientError
  {
    var r := ObjectRef(X0, Some("other"));
    AtCreate(s, s1, [Held(OBJECT)], [Free], [0], OTHER);
    ReadArg(TYPES, r.iface, X0);
    AtPost(s1, s2, [Held(OBJECT)], [Bound(OTHER)], 1, 1, [X0], Payload([r], []));
    StaleArgumentRefused(s2, r);
  }

  lemma StaleArgumentRefused(s: State, r: ObjectRef)
    requires MapsOk(s) && At(s, [Held(OBJECT)], [Bound(OTHER)], [], s.events) && r == ObjectRef(X0, Some("other"))
    requires Carries(s, 1, 1, [X0], 0, Payload([r], []))
    ensures Step(s, ClientRead).clientError
  {
    ReadArg(TYPES, r.iface, X0);
    assert Demarshal(s.client, []) == Ok(s.client);
    assert |"object"| != |"other"|;
    assert !ResolvesObject(s.client, [r][0]);
  }

  /** The client refuses a new object although it never heard of its id: the one before it
      was announced by an event that it discarded. */
  lemma UnheardIdLeavesGap()
    ensures Run(PROTOCOL, GAP).clientError && Observe(Run(PROTOCOL, GAP).client, X2) == (None, false)
  {
    AfterDestroy();
    UnheardFrom(SETUP + [ClientDestroy(X0)]);
    GapFrom(UNHEARD);
  }

  lemma UnheardFrom(r: seq<Action>)
    requires At(Run(PROTOCOL, r), [Used(None, false)], [Bound(OBJECT)], [], [])
    ensures At(Run(PROTOCOL, r + [ServerCreate(OBJECT)] + [ServerEvent(X0, 1, [X1])] + [ClientRead]),
               [Used(None, false)], [Bound(OBJECT), Bound(OBJECT)], [], [])
  {
    var s1, s2, s3 := RunThree(r, ServerCreate(OBJECT), ServerEvent(X0, 1, [X1]), ClientRead);
    AnnouncementDiscarded(Run(PROTOCOL, r), s1, s2, s3);
  }

  lemma AnnouncementDiscarded(s: State, s1: State, s2: State, s3: State)
    requires At(s, [Used(None, false)], [Bound(OBJECT)], [], []) && Follows(s, ServerCreate(OBJECT), s1)
    requires Follows(s1, ServerEvent(X0, 1, [X1]), s2) && Follows(s2, ClientRead, s3)
    ensures At(s3, [Used(None, false)], [Bound(OBJECT), Bound(OBJECT)], [], [])
  {
    AtCreate(s, s1, [Used(None, false)], [Bound(OBJECT)], [], OBJECT);
    assert [Bound(OBJECT)] + [Bound(OBJECT)] == [Bound(OBJECT), Bound(OBJECT)];
    AtAnnounce(s1, s2, [Used(None, false)], [Bound(OBJECT), Bound(OBJECT)], X0, 1, X1);
    assert s2.events == [s2.events[0]];
  }

  lemma GapFrom(r: seq<Action>)
    requires At(Run(PROTOCOL, r), [Used(None, false)], [Bound(OBJECT), Bound(OBJECT)], [], [])
    ensures var s := Run(PROTOCOL, r + [ServerCreate(OBJECT)] + [ServerEvent(1, 0, [X2])] + [ClientRead]);
            s.clientError && Observe(s.client, X2) == (None, false)
  {
    var s1, s2, s3 := RunThree(r, ServerCreate(OBJECT), ServerEvent(1, 0, [X2]), ClientRead);
    GapRefused(Run(PROTOCOL, r), s1, s2, s3);
  }

  lemma GapRefused(s: State, s1: State, s2: State, s3: State)
    requires At(s, [Used(None, false)], [Bound(OBJECT), Bound(OBJECT)], [], [])
    requires Follows(s, ServerCreate(OBJECT), s1)
    requires Follows(s1, ServerEvent(1, 0, [X2]), s2) && Follows(s2, ClientRead, s3)
    ensures s3.clientError && Observe(s3.client, X2) == (None, false)
  {
    AtCreate(s, s1, [Used(None, false)], [Bound(OBJECT), Bound(OBJECT)], [], OBJECT);
    ThirdRefused(s1, s2, s3, [Bound(OBJECT), Bound(OBJECT)] + [Bound(OBJECT)]);
  }

  lemma ThirdRefused(s1: State, s2: State, s3: State, v: ServerSlots)
    requires At(s1, [Used(None, false)], v, [], []) && |v| == 3 && v[2] == Bound(OBJECT)
    requires Follows(s1, ServerEvent(1, 0, [X2]), s2) && Follows(s2, ClientRead, s3)
    ensures s3.clientError && Observe(s3.client, X2) == (None, false)
  {
    AtAnnounce(s1, s2, [Used(None, false)], v, 1, 0, X2);
    ThirdRead(s2, v);
  }

  lemma ThirdRead(s: State, v: ServerSlots)
    requires MapsOk(s) && At(s, [Used(None, false)], v, [], s.events)
    requires Carries(s, 1, 0, [X2], 0, Payload([], [NewObject(X2, OBJECT)]))
    ensures Step(s, ClientRead).clientError && Observe(Step(s, ClientRead).client, X2) == (None, false)
  {
    ReadNew(TYPES, "object", X2);
    NamedTypes();
    assert Demarshal(s.client, [NewObject(X2, OBJECT)]).Err?;
  }
}
