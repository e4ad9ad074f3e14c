/** The object-id protocol between one client and one server.

    The two endpoints each hold an object map and are joined by a request
    channel, an event channel and a side stream of file descriptors.  `Step` is
    one atomic action of an endpoint; a run is any list of actions. */
module IdProtocol {
  import opened Wrappers
  import opened Words
  import opened ObjectMap
  import opened Interfaces

  type Fd = nat

  /** What the client stores under an id.  A zombie keeps the fd counts of the
      destroyed proxy's events until the server confirms the deletion. */
  datatype ClientEntry =
    | Proxy(iface: Interface, idDeleted: bool)
    | Zombie(fdCount: seq<nat>)

  /** An event: its sender's id, its opcode, its words and fds.  The interface of the sender
      and what the server meant by the words are not sent; they are kept for what is said
      about events under way.  Or a delete_id. */
  datatype Event =
    | Event(id: nat, opcode: nat, words: seq<Word>, fds: seq<Fd>, sender: Interface, meant: Payload)
    | DeleteId(deleted: nat)

  /** How far the client has announced its ids: all below count; gap tells whether some id
      was announced before all smaller ones were. */
  datatype Progress = Progress(count: nat, gap: bool)

  /** What both sides are compiled with: the display's interface, and those that messages name. */
  datatype Protocol = Protocol(display: Interface, types: Types)

  datatype State = State(
    types: Types,
    client: ObjectMap<ClientEntry>,
    clientError: bool,                // the display's latched last_error
    announced: Progress,              // the client ids sent so far
    unsent: seq<NewObject>,           // proxies created on their own, whose ids are not sent yet
    requests: seq<NewObject>,         // new ids in flight to the server
    server: ObjectMap<Interface>,
    pending: map<nat, Interface>,     // ids reserved by the server, without a resource yet
    rejected: bool,                   // the server refused a new id
    serverError: bool,                // the client's latched error on the server
    events: seq<Event>,               // in flight to the client or received and unparsed
    fdStream: seq<Fd>,                // their fds, in the order they were sent
    nextFd: Fd,
    deletions: seq<nat>,              // delete_id events queued on the display queue
    aligned: bool,                    // every parsed event took as many fds as it carried
    taken: nat, carried: nat)         // fds the client consumed, fds its parsed events carried

  /** Id 1 is the display object on both sides; id 0 is the NULL object. */
  function Init(p: Protocol): State {
    State(
      p.types,
      ObjectMap(ClientSide, [Used(None, false), Used(Some(Proxy(p.display, false)), false)], [], []),
      false, Progress(2, false), [], [],
      ObjectMap(ServerSide, [Used(None, false), Used(Some(p.display), false)], [], []),
      map[], false, false, [], [], 0, [], true, 0, 0)
  }

  datatype Action =
    | Request(ifaces: seq<Interface>, sendFails: bool)
    | Allocate(iface: Interface)
    | SendId(k: nat, sendFails: bool)
    | ClientDestroy(id: nat)
    | ClientRead
    | ClientDispatch
    | ClientFail
    | ServerRead
    | ServerBind(id: nat)
    | ServerCreate(iface: Interface)
    | ServerEvent(id: nat, opcode: nat, words: seq<Word>)
    | ServerDestroy(id: nat)
    | ServerFail

  // ---------------------------------------------------------------- the client

  /** Creates the proxies for the new-id arguments of a request, in order; stops
      when the id space is exhausted. */
  function CreateProxies(m: ObjectMap<ClientEntry>, ifaces: seq<Interface>)
    : (r: (ObjectMap<ClientEntry>, seq<NewObject>, bool))
    requires m.Valid()
    ensures r.0.Valid() && r.0.side == m.side
    decreases |ifaces|
  {
    if ifaces == [] then (m, [], true)
    else
      var (m1, id) := InsertNew(m, false, Some(Proxy(ifaces[0], false)));
      InsertNewValid(m, false, Some(Proxy(ifaces[0], false)));
      if id == 0 then (m1, [], false)
      else
        var (m2, objects, ok) := CreateProxies(m1, ifaces[1..]);
        (m2, [NewObject(id, ifaces[0])] + objects, ok)
  }

  /** One more id is announced. */
  function AnnounceOne(p: Progress, id: nat): Progress {
    if p.gap || id > p.count then Progress(p.count, true)
    else if id == p.count then Progress(p.count + 1, false)
    else p
  }

  function Announce(p: Progress, objects: seq<NewObject>): Progress
    decreases |objects|
  {
    if objects == [] then p else Announce(AnnounceOne(p, objects[0].id), objects[1..])
  }

  /** A request with new objects: their proxies are created and their ids sent. */
  function DoRequest(s: State, ifaces: seq<Interface>, sendFails: bool): State
    requires s.client.Valid()
  {
    var (m, objects, ok) := CreateProxies(s.client, ifaces);
    if !ok || s.clientError then s.(client := m)
    else if sendFails then s.(client := m, clientError := true)
    else SendAll(s, m, objects)
  }

  /** wl_proxy_create: a proxy whose id some later request will announce. */
  function DoAllocate(s: State, iface: Interface): State
    requires s.client.Valid()
  {
    var (m, id) := InsertNew(s.client, false, Some(Proxy(iface, false)));
    if id == 0 then s.(client := m) else s.(client := m, unsent := s.unsent + [NewObject(id, iface)])
  }

  /** That request, unless the proxy has been destroyed since. */
  function DoSendId(s: State, k: nat, sendFails: bool): State {
    if k >= |s.unsent| || s.clientError || !IsLive(s.client, s.unsent[k].id) then s
    else if sendFails then s.(clientError := true)
    else
      var o := s.unsent[k];
      s.(unsent := s.unsent[..k] + s.unsent[k + 1..], requests := s.requests + [o],
         announced := AnnounceOne(s.announced, o.id))
  }

  predicate IsLive(m: ObjectMap<ClientEntry>, id: nat) {
    Lookup(m, id).Some? && Lookup(m, id).value.Proxy?
  }

  /** What a destroyed proxy leaves under its id: nothing if no event carries an fd. */
  function PrepareZombie(iface: Interface): (z: Option<ClientEntry>) {
    if forall i :: 0 <= i < |iface.FdCounts()| ==> iface.FdCounts()[i] == 0 then None
    else Some(Zombie(iface.FdCounts()))
  }

  /** A client destroys a proxy it holds (never the display). */
  function DoClientDestroy(s: State, id: nat): State
    requires s.client.Valid()
  {
    var p := Lookup(s.client, id);
    if id == 1 || p.None? || !p.value.Proxy? then s
    else if p.value.idDeleted then s.(client := Remove(s.client, id))
    else if IsClientId(id) then
      s.(client := StoreAt(s.client, true, id, PrepareZombie(p.value.iface)))
    else s.(client := StoreAt(s.client, false, id, None))
  }

  /** InsertAt on a slot that exists, which cannot fail for lack of room. */
  function StoreAt<T>(m: ObjectMap<T>, flag: bool, id: nat, data: Option<T>): ObjectMap<T> {
    match InsertAt(m, flag, id, data)
    case Ok(m') => m'
    case Err(_) => m
  }

  predicate IsZombie(m: ObjectMap<ClientEntry>, id: nat) {
    IsClientId(id) && LookupFlags(m, id)
  }

  /** How many fds the client removes from the stream for an event it discards. */
  function DiscardFds(m: ObjectMap<ClientEntry>, id: nat, opcode: nat): nat {
    var z := Lookup(m, id);
    if z.Some? && z.value.Zombie? && opcode < |z.value.fdCount| then z.value.fdCount[opcode] else 0
  }

  function Min(a: nat, b: nat): nat { if a < b then a else b }

  function Take(s: State, n: nat, e: Event): State
    requires e.Event?
  {
    var k := Min(n, |s.fdStream|);
    s.(fdStream := s.fdStream[k..], taken := s.taken + k, carried := s.carried + |e.fds|,
       aligned := s.aligned && k == |e.fds|)
  }

  /** The client parses the next event: queue it, discard it, or fail. */
  function DoClientRead(s: State): State
    requires s.events != []
  {
    var e := s.events[0];
    var s1 := s.(events := s.events[1..]);
    if e.DeleteId? then s1.(deletions := s.deletions + [e.deleted])
    else
      var p := Lookup(s.client, e.id);
      if p.None? || IsZombie(s.client, e.id) then
        Take(s1, DiscardFds(s.client, e.id, e.opcode), e)
      else if p.value.Zombie? || e.opcode >= |p.value.iface.events| then s.(clientError := true)
      else DoReadEvent(s, p.value.iface.events[e.opcode])
  }

  /** The client reads an event by the parameters that its proxy's interface names. */
  function DoReadEvent(s: State, params: seq<Param>): State
    requires s.events != [] && s.events[0].Event?
  {
    var e, n := s.events[0], CountFds(params);
    match ReadPayload(s.types, params, e.words)
    case None => s.(clientError := true)
    case Some(p) =>
      var m := Demarshal(s.client, p.created);
      if |s.fdStream| < n || m.Err? || !ResolvesAll(m.value, p.args) then s.(clientError := true)
      else Take(s.(events := s.events[1..], client := m.value), n, e)
  }

  /** Reserves the ids of an event's new objects, in the order of the arguments. */
  function ReserveAll(m: ObjectMap<ClientEntry>, created: seq<NewObject>): (r: Result<ObjectMap<ClientEntry>>)
    decreases |created|
  {
    if created == [] then Ok(m)
    else
      match ReserveNew(m, created[0].id)
      case Err(e) => Err(e)
      case Ok(m') => ReserveAll(m', created[1..])
  }

  /** Creates the proxies of an event's new objects. */
  function CreateAll(m: ObjectMap<ClientEntry>, created: seq<NewObject>): (r: Result<ObjectMap<ClientEntry>>)
    decreases |created|
  {
    if created == [] then Ok(m)
    else
      match InsertAt(m, false, created[0].id, Some(Proxy(created[0].iface, false)))
      case Err(e) => Err(e)
      case Ok(m') => CreateAll(m', created[1..])
  }

  /** What demarshalling an event does to the map: first all ids are reserved, then the
      proxies are created. */
  function Demarshal(m: ObjectMap<ClientEntry>, created: seq<NewObject>): (r: Result<ObjectMap<ClientEntry>>) {
    match ReserveAll(m, created)
    case Err(e) => Err(e)
    case Ok(m') => CreateAll(m', created)
  }

  /** An object argument must be NULL, destroyed by the client itself, or known and of the
      interface that the message names. */
  predicate ResolvesObject(m: ObjectMap<ClientEntry>, r: ObjectRef) {
    r.id == 0 || IsZombie(m, r.id) || (IsLive(m, r.id) && Matches(Lookup(m, r.id).value.iface, r))
  }

  predicate ResolvesAll(m: ObjectMap<ClientEntry>, args: seq<ObjectRef>) {
    forall j :: 0 <= j < |args| ==> ResolvesObject(m, args[j])
  }

  /** The display queue's delete_id handler. */
  function DoClientDispatch(s: State): State
    requires s.deletions != []
    requires s.client.Valid()
  {
    var id := s.deletions[0];
    var s1 := s.(deletions := s.deletions[1..]);
    var p := Lookup(s.client, id);
    if IsZombie(s.client, id) then s1.(client := Remove(s.client, id))
    else if p.Some? && p.value.Proxy? then
      s1.(client := StoreAt(s.client, false, id, Some(p.value.(idDeleted := true))))
    else s1
  }

  // ---------------------------------------------------------------- the server

  /** The server demarshals the next new id. */
  function DoServerRead(s: State): State
    requires s.requests != []
  {
    var o := s.requests[0];
    match ReserveNew(s.server, o.id)
    case Err(_) => s.(rejected := true)
    case Ok(m) => s.(server := m, requests := s.requests[1..], pending := s.pending[o.id := o.iface])
  }

  /** A request handler creates the resource for a reserved id. */
  function DoServerBind(s: State, id: nat): State {
    if id !in s.pending then s
    else s.(server := StoreAt(s.server, false, id, Some(s.pending[id])), pending := s.pending - {id})
  }

  function FreshFds(next: Fd, n: nat): (r: seq<Fd>)
    ensures |r| == n && forall i :: 0 <= i < n ==> r[i] == next + i
  {
    seq(n, i requires 0 <= i < n => next + i)
  }

  /** The server creates a resource under an id of its own. */
  function DoServerCreate(s: State, iface: Interface): State
    requires s.server.Valid()
  {
    var (m, id) := InsertNew(s.server, false, None);
    if id == 0 then s.(server := m) else s.(server := StoreAt(m, false, id, Some(iface)))
  }

  /** What the server means by these words of an event, if it can post it: its resource, its
      object arguments and the objects it announces exist, with the interfaces named. */
  function Posted(types: Types, m: ObjectMap<Interface>, id: nat, opcode: nat, words: seq<Word>): (p: Option<Payload>) {
    match Lookup(m, id)
    case None => None
    case Some(iface) =>
      if opcode >= |iface.events| then None
      else
        match ReadPayload(types, iface.events[opcode], words)
        case None => None
        case Some(p) => if Exist(m, p) then Some(p) else None
  }

  predicate Exist(m: ObjectMap<Interface>, p: Payload) {
    && (forall j :: 0 <= j < |p.args| ==>
          p.args[j].id == 0 || (Lookup(m, p.args[j].id).Some? && Matches(Lookup(m, p.args[j].id).value, p.args[j])))
    && (forall j :: 0 <= j < |p.created| ==> Lookup(m, p.created[j].id) == Some(p.created[j].iface))
  }

  /** The server posts an event on a resource, with the fds its signature names. */
  function DoServerEvent(s: State, id: nat, opcode: nat, words: seq<Word>): State {
    match Posted(s.types, s.server, id, opcode, words)
    case None => s
    case Some(p) =>
      var iface := Lookup(s.server, id).value;
      var fds := FreshFds(s.nextFd, CountFds(iface.events[opcode]));
      s.(nextFd := s.nextFd + |fds|, fdStream := s.fdStream + fds,
         events := s.events + [Event(id, opcode, words, fds, iface, p)])
  }

  /** The server destroys a resource (never the display). */
  function DoServerDestroy(s: State, id: nat): State
    requires s.server.Valid()
  {
    if id == 1 || Lookup(s.server, id).None? then s
    else if IsClientId(id) then
      s.(events := s.events + [DeleteId(id)], server := StoreAt(s.server, false, id, None))
    else s.(server := Remove(s.server, id))
  }

  // -------------------------------------------------------------------- runs

  function Step(s: State, a: Action): State
    requires s.client.Valid()
    requires s.server.Valid()
  {
    match a
    case Request(ifaces, sendFails) => DoRequest(s, ifaces, sendFails)
    case Allocate(iface) => DoAllocate(s, iface)
    case SendId(k, sendFails) => DoSendId(s, k, sendFails)
    case ClientDestroy(id) => DoClientDestroy(s, id)
    case ClientRead => if s.clientError || s.events == [] then s else DoClientRead(s)
    case ClientDispatch => if s.clientError || s.deletions == [] then s else DoClientDispatch(s)
    case ClientFail => s.(clientError := true)
    case ServerRead => if s.serverError || s.rejected || s.requests == [] then s else DoServerRead(s)
    case ServerBind(id) => if s.serverError then s else DoServerBind(s, id)
    case ServerCreate(iface) => if s.serverError then s else DoServerCreate(s, iface)
    case ServerEvent(id, opcode, words) =>
      if s.serverError then s else DoServerEvent(s, id, opcode, words)
    case ServerDestroy(id) => if s.serverError then s else DoServerDestroy(s, id)
    case ServerFail => s.(serverError := true)
  }

  // --------------------------------------------------------------- invariant

  type ClientSlots = seq<Slot<ClientEntry>>
  type ServerSlots = seq<Slot<Interface>>

  /** Ids of the delete_id events in a list of events, in order. */
  function Deletions(es: seq<Event>): (d: seq<nat>) {
    if es == [] then []
    else (if es[0].DeleteId? then [es[0].deleted] else []) + Deletions(es[1..])
  }

  /** The delete_id events in flight: those still to be parsed and those queued. */
  function Deleting(s: State): seq<nat> {
    s.deletions + Deletions(s.events)
  }

  /** A client slot whose id the server may still use with this interface. */
  predicate Holds(slot: Slot<ClientEntry>, iface: Interface) {
    || slot == Used(Some(Proxy(iface, false)), false)
    || slot == Used(PrepareZombie(iface), true)
  }

  predicate HoldsAt(cs: ClientSlots, i: nat, iface: Interface) {
    i < |cs| && Holds(cs[i], iface)
  }

  /** A client slot whose delete_id has not been handled. */
  predicate Unconfirmed(slot: Slot<ClientEntry>) {
    slot.Used? && if slot.flag then slot.data.Some? ==> slot.data.value.Zombie? else
      slot.data.Some? && slot.data.value.Proxy? && !slot.data.value.idDeleted
  }

  /** A client slot whose delete_id has been handled. */
  predicate Recycled(slot: Slot<ClientEntry>) {
    slot.Free? || (slot.data.Some? && slot.data.value.Proxy? && slot.data.value.idDeleted)
  }

  predicate Vacant(ss: ServerSlots, i: nat) {
    i < |ss| ==> ss[i] == Used(None, false)
  }

  predicate Binds(ss: ServerSlots, i: nat, iface: Interface) {
    i < |ss| && ss[i] == Used(Some(iface), false)
  }

  /** New ids in flight extend the server's array without a gap, up to the one that was
      announced too early, if there is one. */
  predicate InOrder(requests: seq<NewObject>, count: nat, announced: Progress)
    decreases |requests|
  {
    if requests == [] then announced == Progress(count, false)
    else if requests[0].id > count then announced == Progress(count, true)
    else InOrder(requests[1..], if requests[0].id == count then count + 1 else count, announced)
  }

  /** An id allocated by the client and not yet seen by the server. */
  ghost predicate RequestOk(cs: ClientSlots, ss: ServerSlots, pending: map<nat, Interface>, deleting: seq<nat>,
                            o: NewObject)
  {
    && 2 <= o.id && HoldsAt(cs, o.id, o.iface)
    && Vacant(ss, o.id) && o.id !in pending && o.id !in deleting
  }

  ghost predicate RequestsOk(cs: ClientSlots, ss: ServerSlots, requests: seq<NewObject>, pending: map<nat, Interface>,
                             deleting: seq<nat>)
  {
    && (forall j, k :: 0 <= j < k < |requests| ==> requests[j].id != requests[k].id)
    && (forall j :: 0 <= j < |requests| ==> RequestOk(cs, ss, pending, deleting, requests[j]))
  }

  ghost predicate PendingOk(cs: ClientSlots, ss: ServerSlots, pending: map<nat, Interface>, deleting: seq<nat>) {
    forall i :: i in pending ==>
      2 <= i < |ss| && Vacant(ss, i) && HoldsAt(cs, i, pending[i]) && i !in deleting
  }

  ghost predicate ResourcesOk(cs: ClientSlots, ss: ServerSlots, deleting: seq<nat>) {
    && (forall i :: 0 <= i < |ss| ==> ss[i].Used? && !ss[i].flag)
    && (forall i: nat, iface :: Binds(ss, i, iface) ==> HoldsAt(cs, i, iface) && i !in deleting)
  }

  ghost predicate DeletionsOk(cs: ClientSlots, ss: ServerSlots, deleting: seq<nat>) {
    && Distinct(deleting)
    && (forall i :: i in deleting ==>
          2 <= i < |cs| && i < |ss| && Unconfirmed(cs[i]) && Vacant(ss, i))
  }

  /** Each client id is in at most one of: allocated but not arrived, reserved, bound, being deleted;
      and then the client has not freed it. */
  ghost predicate Exclusive(cs: ClientSlots, ss: ServerSlots, requests: seq<NewObject>, pending: map<nat, Interface>,
                            deleting: seq<nat>)
  {
    && RequestsOk(cs, ss, requests, pending, deleting)
    && PendingOk(cs, ss, pending, deleting)
    && ResourcesOk(cs, ss, deleting)
    && DeletionsOk(cs, ss, deleting)
  }

  /** The server still knows the object, or the client will read later that it is gone. */
  predicate Known(cs: ClientSlots, ss: ServerSlots, later: seq<nat>, id: nat, iface: Interface) {
    HoldsAt(cs, id, iface) && (Binds(ss, id, iface) || id in later)
  }

  ghost predicate RefOk(cs: ClientSlots, ss: ServerSlots, later: seq<nat>, r: ObjectRef) {
    exists iface :: Known(cs, ss, later, r.id, iface) && Matches(iface, r)
  }

  predicate Creates(created: seq<NewObject>, id: nat) {
    exists j :: 0 <= j < |created| && created[j].id == id
  }

  /** A payload names an object, as an argument or as a new object. */
  predicate Mentions(p: Payload, r: ObjectRef) {
    r in p.args || (r.iface.None? && Creates(p.created, r.id))
  }

  predicate MentionsId(p: Payload, id: nat) {
    (exists j :: 0 <= j < |p.args| && p.args[j].id == id) || Creates(p.created, id)
  }

  ghost predicate EventOk(cs: ClientSlots, ss: ServerSlots, e: Event, later: seq<nat>) {
    e.Event? ==>
      && (IsClientId(e.id) ==> Known(cs, ss, later, e.id, e.sender))
      && (forall r :: Mentions(e.meant, r) && IsClientId(r.id) && r.id != 0 ==> RefOk(cs, ss, later, r))
  }

  /** The words and fds of an event are what its sender's interface demands, and mean what
      the server meant. */
  predicate WellPosted(types: Types, e: Event) {
    e.Event? ==>
      && e.opcode < |e.sender.events| && |e.fds| == CountFds(e.sender.events[e.opcode])
      && ReadPayload(types, e.sender.events[e.opcode], e.words) == Some(e.meant)
  }

  ghost predicate AllWellPosted(types: Types, es: seq<Event>) {
    forall k :: 0 <= k < |es| ==> WellPosted(types, es[k])
  }

  ghost predicate EventsOk(cs: ClientSlots, ss: ServerSlots, es: seq<Event>) {
    forall k :: 0 <= k < |es| ==> EventOk(cs, ss, es[k], Deletions(es[k + 1..]))
  }

  function AllFds(es: seq<Event>): (f: seq<Fd>) {
    if es == [] then []
    else (if es[0].Event? then es[0].fds else []) + AllFds(es[1..])
  }

  /** As long as every parsed event took its own fds, the stream holds exactly the fds
      of the unparsed events, in order. */
  ghost predicate FdsOk(s: State) {
    s.aligned ==> s.fdStream == AllFds(s.events) && s.taken == s.carried
  }

  /** The ids below the announced count are a part of the client's array, of which the
      server has an initial part; the two display objects stay. */
  ghost predicate RangesOk(cs: ClientSlots, ss: ServerSlots, announced: nat) {
    && 2 <= |ss| <= announced <= |cs| && announced <= MAX_OBJECTS + 1
    && cs[0] == Used(None, false) && ss[0] == Used(None, false)
    && cs[1].Used? && !cs[1].flag && Unconfirmed(cs[1])
    && (forall i :: 0 <= i < |cs| && Recycled(cs[i]) ==> i < |ss|)
  }

  /** The new ids that have not reached the server. */
  function Waiting(s: State): seq<NewObject> {
    s.requests + s.unsent
  }

  ghost predicate MapsOk(s: State) {
    && s.client.Valid() && s.client.side == ClientSide
    && s.server.Valid() && s.server.side == ServerSide
  }

  ghost predicate Inv(s: State) {
    && MapsOk(s)
    && RangesOk(s.client.clientEntries, s.server.clientEntries, s.announced.count)
    && InOrder(s.requests, |s.server.clientEntries|, s.announced)
    && Exclusive(s.client.clientEntries, s.server.clientEntries, Waiting(s), s.pending, Deleting(s))
    && EventsOk(s.client.clientEntries, s.server.clientEntries, s.events)
    && AllWellPosted(s.types, s.events)
    && FdsOk(s)
    && (s.rejected ==> s.announced.gap)
  }

  // ------------------------------------------------------------ event channel

  lemma {:induction false} DeletionsSuffix(es: seq<Event>, k: nat, d: nat)
    requires k <= |es| && d in Deletions(es[k..])
    ensures d in Deletions(es)
  {
    if k == 0 {
      assert es[0..] == es;
    } else {
      assert es[1..][k - 1..] == es[k..];
      DeletionsSuffix(es[1..], k - 1, d);
    }
  }

  lemma {:induction false} DeletionsAppend(es: seq<Event>, e: Event)
    ensures Deletions(es + [e]) == Deletions(es) + (if e.DeleteId? then [e.deleted] else [])
  {
    if es == [] {
      assert es + [e] == [e] && [e][1..] == [];
    } else {
      assert (es + [e])[1..] == es[1..] + [e] && (es + [e])[0] == es[0];
      DeletionsAppend(es[1..], e);
    }
  }

  lemma {:induction false} AllFdsAppend(es: seq<Event>, e: Event)
    ensures AllFds(es + [e]) == AllFds(es) + (if e.Event? then e.fds else [])
  {
    if es == [] {
      assert es + [e] == [e];
    } else {
      assert (es + [e])[1..] == es[1..] + [e];
      AllFdsAppend(es[1..], e);
      var h, t := if es[0].Event? then es[0].fds else [], if e.Event? then e.fds else [];
      assert h + (AllFds(es[1..]) + t) == (h + AllFds(es[1..])) + t;
    }
  }

  lemma EventsOkTail(cs: ClientSlots, ss: ServerSlots, es: seq<Event>)
    requires es != [] && EventsOk(cs, ss, es)
    ensures EventsOk(cs, ss, es[1..]) && EventOk(cs, ss, es[0], Deletions(es[1..]))
  {
    forall k | 0 <= k < |es| - 1 ensures EventOk(cs, ss, es[1..][k], Deletions(es[1..][k + 1..])) {
      assert es[1..][k + 1..] == es[k + 2..];
      assert EventOk(cs, ss, es[k + 1], Deletions(es[k + 2..]));
    }
  }

  lemma KnownEventOk(cs: ClientSlots, ss: ServerSlots, cs': ClientSlots, ss': ServerSlots, e: Event, later: seq<nat>,
                     later': seq<nat>)
    requires EventOk(cs, ss, e, later)
    requires forall i: nat, iface :: Known(cs, ss, later, i, iface) ==> Known(cs', ss', later', i, iface)
    ensures EventOk(cs', ss', e, later')
  {
    if e.Event? {
      forall r | Mentions(e.meant, r) && IsClientId(r.id) && r.id != 0 ensures RefOk(cs', ss', later', r) {
        var iface :| Known(cs, ss, later, r.id, iface) && Matches(iface, r);
        assert Known(cs', ss', later', r.id, iface);
      }
    }
  }

  /** A change of the arrays keeps the events good if it keeps every known object. */
  lemma EventsOkFrame(cs: ClientSlots, ss: ServerSlots, cs': ClientSlots, ss': ServerSlots, es: seq<Event>)
    requires EventsOk(cs, ss, es)
    requires forall i: nat, iface :: Known(cs, ss, Deletions(es), i, iface) ==>
               HoldsAt(cs', i, iface) && (Binds(ss, i, iface) ==> Binds(ss', i, iface))
    ensures EventsOk(cs', ss', es)
  {
    forall k | 0 <= k < |es| ensures EventOk(cs', ss', es[k], Deletions(es[k + 1..])) {
      var later := Deletions(es[k + 1..]);
      forall i: nat, iface | Known(cs, ss, later, i, iface) ensures Known(cs', ss', later, i, iface) {
        if i in later {
          DeletionsSuffix(es, k + 1, i);
        }
        assert Known(cs, ss, Deletions(es), i, iface);
      }
      KnownEventOk(cs, ss, cs', ss', es[k], later, later);
    }
  }

  /** Appending an event, where unbinding a resource appends its delete_id. */
  lemma EventsOkAppend(cs: ClientSlots, ss: ServerSlots, ss': ServerSlots, es: seq<Event>, e: Event)
    requires EventsOk(cs, ss, es) && EventOk(cs, ss', e, [])
    requires forall i: nat, iface :: Binds(ss, i, iface) ==> Binds(ss', i, iface) || e == DeleteId(i)
    ensures EventsOk(cs, ss', es + [e])
  {
    var es' := es + [e];
    forall k | 0 <= k < |es'| ensures EventOk(cs, ss', es'[k], Deletions(es'[k + 1..])) {
      if k == |es| {
        assert es'[k + 1..] == [];
      } else {
        assert es'[k + 1..] == es[k + 1..] + [e];
        DeletionsAppend(es[k + 1..], e);
        KnownEventOk(cs, ss, cs, ss', es[k], Deletions(es[k + 1..]), Deletions(es'[k + 1..]));
      }
    }
  }

  // ------------------------------------------------------- the client's steps

  lemma InitExclusive(cs: ClientSlots, ss: ServerSlots, display: Interface)
    requires |cs| == |ss| == 2 && cs[1] == Used(Some(Proxy(display, false)), false)
    requires ss[0] == Used(None, false) && ss[1] == Used(Some(display), false)
    ensures Exclusive(cs, ss, [], map[], [])
  {
    assert forall i: nat, iface :: Binds(ss, i, iface) ==> i == 1 && iface == display;
  }

  /** Two maps that hold the display only, and empty channels. */
  lemma FirstInv(s: State)
    requires MapsOk(s) && s.events == [] && s.deletions == [] && s.requests == [] && s.unsent == []
    requires s.pending == map[] && s.fdStream == [] && s.taken == s.carried && !s.rejected
    requires RangesOk(s.client.clientEntries, s.server.clientEntries, 2) && s.announced == Progress(2, false)
    requires |s.server.clientEntries| == 2
    requires Exclusive(s.client.clientEntries, s.server.clientEntries, [], map[], [])
    ensures Inv(s)
  {
    assert Deleting(s) == [] && Waiting(s) == [];
  }

  lemma InitInv(p: Protocol)
    ensures Inv(Init(p))
  {
    var s := Init(p);
    InitExclusive(s.client.clientEntries, s.server.clientEntries, p.display);
    FirstInv(s);
  }

  /** Storing under a taken id in a valid map changes at most that slot. */
  lemma StoreAtSlot<T>(m: ObjectMap<T>, flag: bool, id: nat, data: Option<T>)
    requires m.Valid() && Taken(m, id)
    ensures var m' := StoreAt(m, flag, id, data);
            && m'.Valid() && m'.side == m.side
            && (m' == m || m' == WithEntries(m, IsClientId(id), Entries(m, id)[Index(id) := Used(data, flag)]))
            && (Index(id) <= MAX_OBJECTS ==>
                  m' == WithEntries(m, IsClientId(id), Entries(m, id)[Index(id) := Used(data, flag)]))
  {
    if InsertAt(m, flag, id, data).Ok? {
      InsertAtValid(m, flag, id, data);
    }
  }

  /** Changing a client slot keeps the account if whatever it held it still holds. */
  lemma ExclusiveClientSlot(cs: ClientSlots, ss: ServerSlots, requests: seq<NewObject>, pending: map<nat, Interface>,
                            deleting: seq<nat>, x: nat, slot: Slot<ClientEntry>)
    requires Exclusive(cs, ss, requests, pending, deleting) && x < |cs|
    requires forall iface :: Holds(cs[x], iface) ==> Holds(slot, iface)
    requires Unconfirmed(cs[x]) ==> Unconfirmed(slot)
    ensures Exclusive(cs[x := slot], ss, requests, pending, deleting)
  {
    var cs' := cs[x := slot];
    forall i: nat, iface | HoldsAt(cs, i, iface) ensures HoldsAt(cs', i, iface) {}
  }

  lemma ClientSlotInv(s: State, m: ObjectMap<ClientEntry>, x: nat, slot: Slot<ClientEntry>)
    requires Inv(s) && 2 <= x < |s.client.clientEntries|
    requires m.Valid() && m.side == ClientSide && m.clientEntries == s.client.clientEntries[x := slot]
    requires forall iface :: Holds(s.client.clientEntries[x], iface) ==> Holds(slot, iface)
    requires Unconfirmed(s.client.clientEntries[x]) ==> Unconfirmed(slot)
    requires Recycled(slot) ==> Recycled(s.client.clientEntries[x])
    ensures Inv(s.(client := m))
  {
    var cs, ss := s.client.clientEntries, s.server.clientEntries;
    ExclusiveClientSlot(cs, ss, Waiting(s), s.pending, Deleting(s), x, slot);
    EventsOkFrame(cs, ss, m.clientEntries, ss, s.events);
  }

  lemma DestroyDeletedInv(s: State, id: nat)
    requires Inv(s) && IsClientId(id) && 2 <= id && Lookup(s.client, id).Some?
    requires Lookup(s.client, id).value.Proxy? && Lookup(s.client, id).value.idDeleted
    ensures Inv(s.(client := Remove(s.client, id)))
  {
    RemoveFreesForReuse(s.client, id, false, None, id);
    ClientSlotInv(s, Remove(s.client, id), id, Free);
  }

  lemma DestroyZombieInv(s: State, id: nat)
    requires Inv(s) && IsClientId(id) && 2 <= id && Lookup(s.client, id).Some?
    requires Lookup(s.client, id).value.Proxy? && !Lookup(s.client, id).value.idDeleted
    ensures Inv(s.(client := StoreAt(s.client, true, id, PrepareZombie(Lookup(s.client, id).value.iface))))
  {
    var data := PrepareZombie(Lookup(s.client, id).value.iface);
    StoreAtSlot(s.client, true, id, data);
    var m := StoreAt(s.client, true, id, data);
    if m != s.client {
      ClientSlotInv(s, m, id, Used(data, true));
    }
  }

  lemma ClientDestroyInv(s: State, id: nat)
    requires Inv(s)
    ensures Inv(DoClientDestroy(s, id))
  {
    var p := Lookup(s.client, id);
    if id != 1 && p.Some? && p.value.Proxy? {
      assert id != 0;
      if IsClientId(id) {
        if p.value.idDeleted {
          DestroyDeletedInv(s, id);
        } else {
          DestroyZombieInv(s, id);
        }
      } else {
        StoreAtSlot(s.client, false, id, None);
      }
    }
  }

  lemma {:induction false} ReserveAllValid(m: ObjectMap<ClientEntry>, created: seq<NewObject>)
    requires m.Valid() && m.side == ClientSide && ReserveAll(m, created).Ok?
    ensures var m' := ReserveAll(m, created).value;
            && m'.Valid() && m'.side == ClientSide && m'.clientEntries == m.clientEntries
            && forall j :: 0 <= j < |created| ==> !IsClientId(created[j].id)
    decreases |created|
  {
    if created != [] {
      ReserveNewAdmits(m, created[0].id, created[0].id);
      ReserveAllValid(ReserveNew(m, created[0].id).value, created[1..]);
      assert forall j :: 1 <= j < |created| ==> created[j] == created[1..][j - 1];
    }
  }

  lemma {:induction false} CreateAllValid(m: ObjectMap<ClientEntry>, created: seq<NewObject>)
    requires m.Valid() && m.side == ClientSide && CreateAll(m, created).Ok?
    requires forall j :: 0 <= j < |created| ==> !IsClientId(created[j].id)
    ensures var m' := CreateAll(m, created).value;
            m'.Valid() && m'.side == ClientSide && m'.clientEntries == m.clientEntries
    decreases |created|
  {
    if created != [] {
      var data := Some(Proxy(created[0].iface, false));
      InsertAtValid(m, false, created[0].id, data);
      CreateAllValid(InsertAt(m, false, created[0].id, data).value, created[1..]);
    }
  }

  lemma DemarshalValid(m: ObjectMap<ClientEntry>, created: seq<NewObject>)
    requires m.Valid() && m.side == ClientSide && Demarshal(m, created).Ok?
    ensures var m' := Demarshal(m, created).value;
            m'.Valid() && m'.side == ClientSide && m'.clientEntries == m.clientEntries
  {
    ReserveAllValid(m, created);
    CreateAllValid(ReserveAll(m, created).value, created);
  }

  /** An event on a client id is read through the interface it was posted with, or discarded
      with its own fds, whatever the id's proxy has become. */
  lemma ClientIdSender(s: State)
    requires Inv(s) && s.events != [] && s.events[0].Event? && IsClientId(s.events[0].id)
    ensures var e := s.events[0];
            var p := Lookup(s.client, e.id);
            && WellPosted(s.types, e)
            && if p.None? || IsZombie(s.client, e.id) then DiscardFds(s.client, e.id, e.opcode) == |e.fds|
               else p.value == Proxy(e.sender, false)
  {
    var e := s.events[0];
    EventsOkTail(s.client.clientEntries, s.server.clientEntries, s.events);
    assert WellPosted(s.types, e);
    if PrepareZombie(e.sender).None? {
      assert e.sender.FdCounts()[e.opcode] == 0;
    }
  }

  lemma TakeInv(s: State, m: ObjectMap<ClientEntry>, n: nat)
    requires Inv(s) && s.events != [] && s.events[0].Event?
    requires m.Valid() && m.side == ClientSide && m.clientEntries == s.client.clientEntries
    ensures Inv(Take(s.(events := s.events[1..], client := m), n, s.events[0]))
  {
    var e := s.events[0];
    EventsOkTail(s.client.clientEntries, s.server.clientEntries, s.events);
    assert AllFds(s.events)[|e.fds|..] == AllFds(s.events[1..]);
    assert Deletions(s.events) == Deletions(s.events[1..]);
  }

  lemma ReadDeletionInv(s: State)
    requires Inv(s) && s.events != [] && s.events[0].DeleteId?
    ensures Inv(s.(events := s.events[1..], deletions := s.deletions + [s.events[0].deleted]))
  {
    EventsOkTail(s.client.clientEntries, s.server.clientEntries, s.events);
    assert (s.deletions + [s.events[0].deleted]) + Deletions(s.events[1..]) == s.deletions + Deletions(s.events);
  }

  /** Marking the display as failed only weakens what is claimed. */
  lemma FailedInv(s: State)
    requires Inv(s)
    ensures Inv(s.(clientError := true))
  {
  }

  lemma ClientReadInv(s: State)
    requires Inv(s) && s.events != []
    ensures Inv(DoClientRead(s))
  {
    var e := s.events[0];
    if e.DeleteId? {
      ReadDeletionInv(s);
    } else {
      FailedInv(s);
      var p := Lookup(s.client, e.id);
      if p.None? || IsZombie(s.client, e.id) {
        TakeInv(s, s.client, DiscardFds(s.client, e.id, e.opcode));
      } else if p.value.Proxy? && e.opcode < |p.value.iface.events| {
        ReadEventInv(s, p.value.iface.events[e.opcode]);
      }
    }
  }

  lemma ReadEventInv(s: State, params: seq<Param>)
    requires Inv(s) && s.events != [] && s.events[0].Event?
    ensures Inv(DoReadEvent(s, params))
  {
    FailedInv(s);
    var p := ReadPayload(s.types, params, s.events[0].words);
    if p.Some? && Demarshal(s.client, p.value.created).Ok? {
      DemarshalValid(s.client, p.value.created);
      TakeInv(s, Demarshal(s.client, p.value.created).value, CountFds(params));
    }
  }

  lemma DeletionsDispatch(cs: ClientSlots, ss: ServerSlots, deleting: seq<nat>, slot: Slot<ClientEntry>)
    requires deleting != [] && deleting[0] < |cs| && DeletionsOk(cs, ss, deleting)
    ensures deleting[0] !in deleting[1..]
    ensures DeletionsOk(cs[deleting[0] := slot], ss, deleting[1..])
  {
    forall i | i in deleting[1..] ensures i in deleting && i != deleting[0] {
      var k :| 0 <= k < |deleting[1..]| && deleting[1..][k] == i;
      assert deleting[k + 1] == i;
    }
  }

  lemma ExclusiveDispatch(cs: ClientSlots, ss: ServerSlots, requests: seq<NewObject>, pending: map<nat, Interface>,
                          deleting: seq<nat>, slot: Slot<ClientEntry>)
    requires deleting != [] && deleting[0] < |cs|
    requires Exclusive(cs, ss, requests, pending, deleting)
    ensures Exclusive(cs[deleting[0] := slot], ss, requests, pending, deleting[1..])
  {
    var x := deleting[0];
    DeletionsDispatch(cs, ss, deleting, slot);
    assert x in deleting;
    var cs' := cs[x := slot];
    forall i: nat, iface | i != x && HoldsAt(cs, i, iface) ensures HoldsAt(cs', i, iface) {}
  }

  lemma DispatchSlotInv(s: State, m: ObjectMap<ClientEntry>, slot: Slot<ClientEntry>)
    requires Inv(s) && s.deletions != [] && 2 <= s.deletions[0] < |s.client.clientEntries|
    requires m.Valid() && m.side == ClientSide && m.clientEntries == s.client.clientEntries[s.deletions[0] := slot]
    ensures Inv(s.(client := m, deletions := s.deletions[1..]))
  {
    var id := s.deletions[0];
    var cs, ss := s.client.clientEntries, s.server.clientEntries;
    assert id == Deleting(s)[0] && id in Deleting(s);
    assert Deleting(s)[1..] == s.deletions[1..] + Deletions(s.events);
    assert id !in Deletions(s.events) by {
      assert id !in Deleting(s)[1..];
    }
    ExclusiveDispatch(cs, ss, Waiting(s), s.pending, Deleting(s), slot);
    EventsOkFrame(cs, ss, m.clientEntries, ss, s.events);
  }

  lemma ClientDispatchInv(s: State)
    requires Inv(s) && s.deletions != []
    ensures Inv(DoClientDispatch(s))
  {
    var id := s.deletions[0];
    assert id in Deleting(s);
    assert Unconfirmed(s.client.clientEntries[id]) && id < |s.server.clientEntries| && IsClientId(id);
    assert Lookup(s.client, id) == s.client.clientEntries[id].data;
    if IsZombie(s.client, id) {
      RemoveFreesForReuse(s.client, id, false, None, id);
      DispatchSlotInv(s, Remove(s.client, id), Free);
    } else {
      DispatchLiveInv(s, id);
    }
  }

  lemma DispatchLiveInv(s: State, id: nat)
    requires Inv(s) && s.deletions != [] && id == s.deletions[0] && 2 <= id < |s.client.clientEntries| && IsClientId(id)
    requires IsLive(s.client, id) && id <= MAX_OBJECTS
    ensures Inv(s.(client := StoreAt(s.client, false, id, Some(Lookup(s.client, id).value.(idDeleted := true))),
                   deletions := s.deletions[1..]))
  {
    var p := Some(Lookup(s.client, id).value.(idDeleted := true));
    StoreAtSlot(s.client, false, id, p);
    DispatchSlotInv(s, StoreAt(s.client, false, id, p), Used(p, false));
  }

  lemma {:induction false} InOrderAppend(q: seq<NewObject>, count: nat, p: Progress, o: NewObject)
    requires InOrder(q, count, p)
    ensures count <= p.count && InOrder(q + [o], count, AnnounceOne(p, o.id))
    decreases |q|
  {
    if q == [] {
      assert q + [o] == [o] && [o][1..] == [];
    } else {
      assert (q + [o])[1..] == q[1..] + [o];
      if q[0].id <= count {
        InOrderAppend(q[1..], if q[0].id == count then count + 1 else count, p, o);
      }
    }
  }

  /** A slot that held nothing takes a new proxy. */
  lemma ExclusiveNewProxy(cs: ClientSlots, cs': ClientSlots, ss: ServerSlots, requests: seq<NewObject>,
                          pending: map<nat, Interface>, deleting: seq<nat>, o: NewObject)
    requires Exclusive(cs, ss, requests, pending, deleting)
    requires o.id <= |cs| && 2 <= o.id && (o.id < |cs| ==> cs[o.id].Free?)
    requires cs' == (if o.id < |cs| then cs[o.id := Used(Some(Proxy(o.iface, false)), false)]
                     else cs + [Used(Some(Proxy(o.iface, false)), false)])
    ensures Exclusive(cs', ss, requests, pending, deleting)
    ensures RequestOk(cs', ss, pending, deleting, o) && forall j :: 0 <= j < |requests| ==> requests[j].id != o.id
  {
    forall i: nat, iface | HoldsAt(cs, i, iface) ensures HoldsAt(cs', i, iface) {}
    if o.id < |ss| && ss[o.id].data.Some? {
      assert Binds(ss, o.id, ss[o.id].data.value);
    }
  }

  /** Allocating one proxy and sending its id. */
  function SendNew(s: State, m: ObjectMap<ClientEntry>, o: NewObject): State {
    s.(client := m, requests := s.requests + [o], announced := AnnounceOne(s.announced, o.id))
  }

  lemma ExhaustedInv(s: State, m: ObjectMap<ClientEntry>)
    requires Inv(s) && m.Valid() && m.side == ClientSide
    requires m.clientEntries == s.client.clientEntries + [Used(None, false)]
    ensures Inv(s.(client := m))
  {
    var cs, cs' := s.client.clientEntries, m.clientEntries;
    forall i: nat, iface | HoldsAt(cs, i, iface) ensures HoldsAt(cs', i, iface) {}
    EventsOkFrame(cs, s.server.clientEntries, cs', s.server.clientEntries, s.events);
  }

  predicate TakesSlot(cs: ClientSlots, cs': ClientSlots, o: NewObject) {
    && 2 <= o.id <= |cs| && (o.id < |cs| ==> cs[o.id].Free?) && (o.id == |cs| ==> |cs| <= MAX_OBJECTS)
    && cs' == (if o.id < |cs| then cs[o.id := Used(Some(Proxy(o.iface, false)), false)]
               else cs + [Used(Some(Proxy(o.iface, false)), false)])
  }

  /** A proxy that is never sent. */
  lemma UnsentProxyInv(s: State, m: ObjectMap<ClientEntry>, o: NewObject)
    requires Inv(s) && m.Valid() && m.side == ClientSide
    requires TakesSlot(s.client.clientEntries, m.clientEntries, o)
    ensures Inv(s.(client := m))
  {
    var cs, ss := s.client.clientEntries, s.server.clientEntries;
    ExclusiveNewProxy(cs, m.clientEntries, ss, Waiting(s), s.pending, Deleting(s), o);
    EventsOkFrame(cs, ss, m.clientEntries, ss, s.events);
  }

  lemma ExclusiveAnnounce(cs: ClientSlots, ss: ServerSlots, requests: seq<NewObject>, pending: map<nat, Interface>,
                          deleting: seq<nat>, o: NewObject)
    requires Exclusive(cs, ss, requests, pending, deleting) && RequestOk(cs, ss, pending, deleting, o)
    requires forall j :: 0 <= j < |requests| ==> requests[j].id != o.id
    ensures Exclusive(cs, ss, requests + [o], pending, deleting)
  {
  }

  lemma SentExclusive(cs: ClientSlots, cs': ClientSlots, ss: ServerSlots, requests: seq<NewObject>,
                      pending: map<nat, Interface>, deleting: seq<nat>, o: NewObject)
    requires Exclusive(cs, ss, requests, pending, deleting) && TakesSlot(cs, cs', o)
    ensures Exclusive(cs', ss, requests + [o], pending, deleting)
  {
    ExclusiveNewProxy(cs, cs', ss, requests, pending, deleting, o);
    ExclusiveAnnounce(cs', ss, requests, pending, deleting, o);
  }

  /** The order in which the new ids wait does not matter. */
  lemma ExclusiveReordered(cs: ClientSlots, ss: ServerSlots, q: seq<NewObject>, q': seq<NewObject>,
                           pending: map<nat, Interface>, deleting: seq<nat>)
    requires Exclusive(cs, ss, q, pending, deleting) && multiset(q) == multiset(q')
    ensures Exclusive(cs, ss, q', pending, deleting)
  {
    forall j | 0 <= j < |q'| ensures RequestOk(cs, ss, pending, deleting, q'[j]) {
      assert q'[j] in multiset(q);
    }
    forall j, k | 0 <= j < k < |q'| ensures q'[j].id != q'[k].id {
      IdsOnce(q, q', j, k);
    }
  }

  /** Ids that are all different stay so when they are reordered. */
  lemma IdsOnce(q: seq<NewObject>, q': seq<NewObject>, j: nat, k: nat)
    requires multiset(q) == multiset(q') && j < k < |q'|
    requires forall i, l :: 0 <= i < l < |q| ==> q[i].id != q[l].id
    ensures q'[j].id != q'[k].id
  {
    assert q'[j] in multiset(q) && q'[k] in multiset(q);
    var i :| 0 <= i < |q| && q[i] == q'[j];
    if q'[j] == q'[k] {
      Twice(q', j, k);
      OnlyOnce(q, i);
    } else {
      var l :| 0 <= l < |q| && q[l] == q'[k];
    }
  }

  lemma Twice(q: seq<NewObject>, j: nat, k: nat)
    requires j < k < |q| && q[j] == q[k]
    ensures multiset(q)[q[j]] >= 2
  {
    assert q == q[..j] + [q[j]] + q[j + 1..k] + [q[k]] + q[k + 1..];
  }

  lemma OnlyOnce(q: seq<NewObject>, i: nat)
    requires i < |q| && forall j, l :: 0 <= j < l < |q| ==> q[j].id != q[l].id
    ensures multiset(q)[q[i]] == 1
  {
    assert q == q[..i] + [q[i]] + q[i + 1..];
    assert q[i] !in q[..i] && q[i] !in q[i + 1..];
  }

  lemma SentEventsOk(cs: ClientSlots, cs': ClientSlots, ss: ServerSlots, events: seq<Event>, o: NewObject)
    requires EventsOk(cs, ss, events) && TakesSlot(cs, cs', o)
    ensures EventsOk(cs', ss, events)
  {
    forall i: nat, iface | HoldsAt(cs, i, iface) ensures HoldsAt(cs', i, iface) {}
    EventsOkFrame(cs, ss, cs', ss, events);
  }

  /** A new client array, waiting ids and announced prefix, with all else unchanged. */
  lemma SentKeepsInv(s: State, s': State)
    requires Inv(s)
    requires s' == s.(client := s'.client, requests := s'.requests, unsent := s'.unsent, announced := s'.announced)
    requires s'.client.Valid() && s'.client.side == ClientSide && (s.announced.gap ==> s'.announced.gap)
    requires var cs', ss := s'.client.clientEntries, s.server.clientEntries;
             && RangesOk(cs', ss, s'.announced.count) && InOrder(s'.requests, |ss|, s'.announced)
             && Exclusive(cs', ss, Waiting(s'), s.pending, Deleting(s)) && EventsOk(cs', ss, s.events)
    ensures Inv(s')
  {
    assert Deleting(s') == Deleting(s);
  }

  lemma SentProxyInv(s: State, m: ObjectMap<ClientEntry>, o: NewObject)
    requires Inv(s) && m.Valid() && m.side == ClientSide
    requires TakesSlot(s.client.clientEntries, m.clientEntries, o)
    ensures Inv(SendNew(s, m, o))
  {
    var cs, ss := s.client.clientEntries, s.server.clientEntries;
    SentParts(cs, m.clientEntries, ss, s.announced, s.requests, s.unsent, s.pending, Deleting(s), s.events, o);
    SentKeepsInv(s, SendNew(s, m, o));
  }

  lemma SentParts(cs: ClientSlots, cs': ClientSlots, ss: ServerSlots, announced: Progress, requests: seq<NewObject>,
                  unsent: seq<NewObject>, pending: map<nat, Interface>, deleting: seq<nat>, events: seq<Event>,
                  o: NewObject)
    requires RangesOk(cs, ss, announced.count) && InOrder(requests, |ss|, announced)
    requires Exclusive(cs, ss, requests + unsent, pending, deleting) && EventsOk(cs, ss, events)
    requires TakesSlot(cs, cs', o)
    ensures var announced' := AnnounceOne(announced, o.id);
            RangesOk(cs', ss, announced'.count) && InOrder(requests + [o], |ss|, announced')
    ensures Exclusive(cs', ss, (requests + [o]) + unsent, pending, deleting) && EventsOk(cs', ss, events)
  {
    SentExclusive(cs, cs', ss, requests + unsent, pending, deleting, o);
    ExclusiveReordered(cs', ss, requests + unsent + [o], (requests + [o]) + unsent, pending, deleting);
    SentEventsOk(cs, cs', ss, events, o);
    SentRangesOk(cs, cs', ss, announced, o);
    InOrderAppend(requests, |ss|, announced, o);
  }

  lemma SentRangesOk(cs: ClientSlots, cs': ClientSlots, ss: ServerSlots, announced: Progress, o: NewObject)
    requires RangesOk(cs, ss, announced.count) && TakesSlot(cs, cs', o)
    ensures RangesOk(cs', ss, AnnounceOne(announced, o.id).count)
  {
  }

  /** A proxy on its own, whose id waits to be sent. */
  lemma AllocatedInv(s: State, m: ObjectMap<ClientEntry>, o: NewObject)
    requires Inv(s) && m.Valid() && m.side == ClientSide
    requires TakesSlot(s.client.clientEntries, m.clientEntries, o)
    ensures Inv(s.(client := m, unsent := s.unsent + [o]))
  {
    var cs, ss, s' := s.client.clientEntries, s.server.clientEntries, s.(client := m, unsent := s.unsent + [o]);
    SentExclusive(cs, m.clientEntries, ss, Waiting(s), s.pending, Deleting(s), o);
    assert Waiting(s') == Waiting(s) + [o];
    SentEventsOk(cs, m.clientEntries, ss, s.events, o);
    SentKeepsInv(s, s');
  }

  /** An id that waited is sent. */
  lemma SendIdInv(s: State, k: nat, sendFails: bool)
    requires Inv(s)
    ensures Inv(DoSendId(s, k, sendFails))
  {
    FailedInv(s);
    if k < |s.unsent| && !s.clientError && IsLive(s.client, s.unsent[k].id) && !sendFails {
      var cs, ss, o, s' := s.client.clientEntries, s.server.clientEntries, s.unsent[k], DoSendId(s, k, sendFails);
      InOrderAppend(s.requests, |ss|, s.announced, o);
      WaitingReordered(s.requests, s.unsent, k);
      ExclusiveReordered(cs, ss, Waiting(s), Waiting(s'), s.pending, Deleting(s));
      LiveInRange(s, o);
      SentKeepsInv(s, s');
    }
  }

  lemma WaitingReordered(requests: seq<NewObject>, unsent: seq<NewObject>, k: nat)
    requires k < |unsent|
    ensures unsent[k] in requests + unsent
    ensures multiset(requests + unsent) == multiset((requests + [unsent[k]]) + (unsent[..k] + unsent[k + 1..]))
  {
    assert unsent == unsent[..k] + [unsent[k]] + unsent[k + 1..];
  }

  /** A live proxy's id is in range. */
  lemma LiveInRange(s: State, o: NewObject)
    requires Inv(s) && o in Waiting(s) && IsLive(s.client, o.id)
    ensures RangesOk(s.client.clientEntries, s.server.clientEntries, AnnounceOne(s.announced, o.id).count)
  {
    var cs, ss := s.client.clientEntries, s.server.clientEntries;
    var j :| 0 <= j < |Waiting(s)| && Waiting(s)[j] == o;
    assert RequestOk(cs, ss, s.pending, Deleting(s), Waiting(s)[j]);
  }

  /** A new proxy takes a slot of the client's that held nothing. */
  lemma NewProxySlot(c: ObjectMap<ClientEntry>, iface: Interface)
    requires c.Valid() && c.side == ClientSide && !Exhausted(c) && |c.clientEntries| >= 2
    requires c.clientEntries[0].Used? && c.clientEntries[1].Used?
    ensures var (m, id) := InsertNew(c, false, Some(Proxy(iface, false)));
            id != 0 && TakesSlot(c.clientEntries, m.clientEntries, NewObject(id, iface))
  {
    assert c.free != [] ==> c.free[0] in c.free;
  }

  lemma NewProxyInv(s: State, iface: Interface)
    requires Inv(s)
    ensures var (m, id) := InsertNew(s.client, false, Some(Proxy(iface, false)));
            && Inv(s.(client := m))
            && (id != 0 ==> Inv(SendNew(s, m, NewObject(id, iface))))
            && (id != 0 ==> Inv(s.(client := m, unsent := s.unsent + [NewObject(id, iface)])))
  {
    var data := Some(Proxy(iface, false));
    var (m, id) := InsertNew(s.client, false, data);
    InsertNewValid(s.client, false, data);
    if Exhausted(s.client) {
      ExhaustedInv(s, m);
    } else {
      NewProxySlot(s.client, iface);
      UnsentProxyInv(s, m, NewObject(id, iface));
      SentProxyInv(s, m, NewObject(id, iface));
      AllocatedInv(s, m, NewObject(id, iface));
    }
  }

  /** Proxies created for a request that is not sent: the display has failed, or the
      id space is exhausted. */
  lemma {:induction false} UnsentInv(s: State, ifaces: seq<Interface>)
    requires Inv(s)
    ensures Inv(s.(client := CreateProxies(s.client, ifaces).0))
    decreases |ifaces|
  {
    if ifaces != [] {
      var (m, id) := InsertNew(s.client, false, Some(Proxy(ifaces[0], false)));
      NewProxyInv(s, ifaces[0]);
      if id != 0 {
        UnsentInv(s.(client := m), ifaces[1..]);
      }
    }
  }

  function SendAll(s: State, m: ObjectMap<ClientEntry>, objects: seq<NewObject>): State {
    s.(client := m, requests := s.requests + objects, announced := Announce(s.announced, objects))
  }

  lemma SendAllCons(s: State, m1: ObjectMap<ClientEntry>, m: ObjectMap<ClientEntry>, o: NewObject,
                    objects: seq<NewObject>)
    ensures SendAll(SendNew(s, m1, o), m, objects) == SendAll(s, m, [o] + objects)
  {
    assert (s.requests + [o]) + objects == s.requests + ([o] + objects);
    assert ([o] + objects)[1..] == objects;
  }

  lemma {:induction false} SentInv(s: State, ifaces: seq<Interface>)
    requires Inv(s) && CreateProxies(s.client, ifaces).2
    ensures var (m, objects, _) := CreateProxies(s.client, ifaces);
            Inv(SendAll(s, m, objects))
    decreases |ifaces|
  {
    var (m, objects, _) := CreateProxies(s.client, ifaces);
    if ifaces == [] {
      assert SendAll(s, m, objects) == s by {
        assert s.requests + objects == s.requests;
      }
    } else {
      var (m1, id) := InsertNew(s.client, false, Some(Proxy(ifaces[0], false)));
      var o := NewObject(id, ifaces[0]);
      NewProxyInv(s, ifaces[0]);
      SentInv(SendNew(s, m1, o), ifaces[1..]);
      SendAllCons(s, m1, m, o, CreateProxies(m1, ifaces[1..]).1);
    }
  }

  lemma RequestInv(s: State, ifaces: seq<Interface>, sendFails: bool)
    requires Inv(s)
    ensures Inv(DoRequest(s, ifaces, sendFails))
  {
    var (m, objects, ok) := CreateProxies(s.client, ifaces);
    UnsentInv(s, ifaces);
    FailedInv(s.(client := m));
    if ok && !s.clientError && !sendFails {
      SentInv(s, ifaces);
    }
  }

  // ------------------------------------------------------- the server's steps

  /** The server accepts the next announced id exactly if it leaves no gap. */
  lemma ServerReadAdmits(s: State)
    requires Inv(s) && s.requests != []
    ensures var o, count := s.requests[0], |s.server.clientEntries|;
            && (ReserveNew(s.server, o.id).Ok? <==> o.id <= count)
            && (o.id > count ==> s.announced.gap)
            && (o.id <= count ==>
                  var m := ReserveNew(s.server, o.id).value;
                  && m.Valid() && m.side == ServerSide && |m.clientEntries| <= s.announced.count
                  && InOrder(s.requests[1..], |m.clientEntries|, s.announced))
  {
    var o, rest := s.requests[0], s.requests[1..];
    var ss := s.server.clientEntries;
    assert Waiting(s)[0] == o;
    assert RequestOk(s.client.clientEntries, ss, s.pending, Deleting(s), o);
    if o.id <= |ss| {
      InOrderBound(rest, if o.id == |ss| then |ss| + 1 else |ss|, s.announced);
    }
    ReserveNewAdmits(s.server, o.id, o.id);
  }

  lemma ExclusiveReserve(cs: ClientSlots, ss: ServerSlots, ss': ServerSlots, requests: seq<NewObject>,
                         pending: map<nat, Interface>, deleting: seq<nat>)
    requires requests != [] && requests[0].id <= |ss|
    requires Exclusive(cs, ss, requests, pending, deleting)
    requires ss' == (if requests[0].id == |ss| then ss + [Used(None, false)] else ss)
    ensures Exclusive(cs, ss', requests[1..], pending[requests[0].id := requests[0].iface], deleting)
  {
    var o, rest := requests[0], requests[1..];
    assert RequestOk(cs, ss, pending, deleting, o);
    assert forall i: nat, iface :: Binds(ss, i, iface) <==> Binds(ss', i, iface);
    forall j | 0 <= j < |rest| ensures RequestOk(cs, ss', pending[o.id := o.iface], deleting, rest[j]) {
      assert rest[j] == requests[j + 1];
    }
  }

  lemma ServerReadInv(s: State)
    requires Inv(s) && s.requests != []
    ensures Inv(DoServerRead(s))
  {
    ServerReadAdmits(s);
    if s.requests[0].id <= |s.server.clientEntries| {
      ReserveInv(s);
    }
  }

  lemma ReserveInv(s: State)
    requires Inv(s) && s.requests != [] && s.requests[0].id <= |s.server.clientEntries|
    ensures Inv(DoServerRead(s))
  {
    var cs, ss, o := s.client.clientEntries, s.server.clientEntries, s.requests[0];
    assert Waiting(s)[0] == o && Waiting(s)[1..] == s.requests[1..] + s.unsent;
    assert RequestOk(cs, ss, s.pending, Deleting(s), o);
    ServerReadAdmits(s);
    var m := ReserveNew(s.server, o.id).value;
    ExclusiveReserve(cs, ss, m.clientEntries, Waiting(s), s.pending, Deleting(s));
    ReservedEventsOk(cs, ss, m.clientEntries, s.events);
    ReservedKeepsInv(s, m, o);
  }

  /** A new server array, with the first request reserved. */
  lemma ReservedKeepsInv(s: State, m: ObjectMap<Interface>, o: NewObject)
    requires Inv(s) && m.Valid() && m.side == ServerSide && s.requests != []
    requires var cs, ss, ss' := s.client.clientEntries, s.server.clientEntries, m.clientEntries;
             && (ss' == ss || ss' == ss + [Used(None, false)]) && |ss'| <= s.announced.count
             && InOrder(s.requests[1..], |ss'|, s.announced)
             && Exclusive(cs, ss', s.requests[1..] + s.unsent, s.pending[o.id := o.iface], Deleting(s))
             && EventsOk(cs, ss', s.events)
    ensures Inv(s.(server := m, requests := s.requests[1..], pending := s.pending[o.id := o.iface]))
  {
  }

  lemma ReservedEventsOk(cs: ClientSlots, ss: ServerSlots, ss': ServerSlots, events: seq<Event>)
    requires EventsOk(cs, ss, events) && (ss' == ss || ss' == ss + [Used(None, false)])
    ensures EventsOk(cs, ss', events)
  {
    assert forall i: nat, iface :: Binds(ss, i, iface) <==> Binds(ss', i, iface);
    EventsOkFrame(cs, ss, cs, ss', events);
  }

  lemma {:induction false} InOrderBound(q: seq<NewObject>, count: nat, p: Progress)
    requires InOrder(q, count, p)
    ensures count <= p.count
    decreases |q|
  {
    if q != [] && q[0].id <= count {
      InOrderBound(q[1..], if q[0].id == count then count + 1 else count, p);
    }
  }

  lemma ExclusiveBind(cs: ClientSlots, ss: ServerSlots, requests: seq<NewObject>, pending: map<nat, Interface>,
                      deleting: seq<nat>, id: nat)
    requires id in pending && Exclusive(cs, ss, requests, pending, deleting)
    ensures id < |ss|
    ensures Exclusive(cs, ss[id := Used(Some(pending[id]), false)], requests, pending - {id}, deleting)
  {
    var ss' := ss[id := Used(Some(pending[id]), false)];
    assert forall i: nat, iface :: i != id ==> (Binds(ss, i, iface) <==> Binds(ss', i, iface));
  }

  lemma ServerBindInv(s: State, id: nat)
    requires Inv(s)
    ensures Inv(DoServerBind(s, id))
  {
    if id in s.pending {
      var cs, ss := s.client.clientEntries, s.server.clientEntries;
      ExclusiveBind(cs, ss, Waiting(s), s.pending, Deleting(s), id);
      StoreAtSlot(s.server, false, id, Some(s.pending[id]));
      var ss' := ss[id := Used(Some(s.pending[id]), false)];
      assert forall i: nat, iface :: i != id ==> (Binds(ss, i, iface) <==> Binds(ss', i, iface));
      EventsOkFrame(cs, ss, cs, ss', s.events);
    }
  }

  lemma FdsAppend(s: State, fds: seq<Fd>, e: Event)
    requires FdsOk(s) && fds == (if e.Event? then e.fds else [])
    ensures FdsOk(s.(fdStream := s.fdStream + fds, events := s.events + [e]))
  {
    AllFdsAppend(s.events, e);
  }

  lemma BoundIsKnown(cs: ClientSlots, ss: ServerSlots, m: ObjectMap<Interface>, deleting: seq<nat>, id: nat)
    requires m.clientEntries == ss && ResourcesOk(cs, ss, deleting)
    requires IsClientId(id) && id != 0 && Lookup(m, id).Some?
    ensures Known(cs, ss, [], id, Lookup(m, id).value)
  {
    assert Binds(ss, id, ss[id].data.value);
  }

  lemma PostedEventOk(s: State, e: Event)
    requires Inv(s) && e.Event? && Lookup(s.server, e.id) == Some(e.sender) && Exist(s.server, e.meant)
    ensures EventOk(s.client.clientEntries, s.server.clientEntries, e, [])
  {
    var cs, ss := s.client.clientEntries, s.server.clientEntries;
    if IsClientId(e.id) {
      assert ss[0].data.None?;
      BoundIsKnown(cs, ss, s.server, Deleting(s), e.id);
    }
    forall r | Mentions(e.meant, r) && IsClientId(r.id) && r.id != 0 ensures RefOk(cs, ss, [], r) {
      assert Lookup(s.server, r.id).Some? && Matches(Lookup(s.server, r.id).value, r);
      BoundIsKnown(cs, ss, s.server, Deleting(s), r.id);
    }
  }

  /** Posting an event on a known resource. */
  lemma PostInv(s: State, e: Event, nextFd: Fd)
    requires Inv(s) && e.Event? && EventOk(s.client.clientEntries, s.server.clientEntries, e, [])
    requires WellPosted(s.types, e)
    ensures Inv(s.(nextFd := nextFd, fdStream := s.fdStream + e.fds, events := s.events + [e]))
  {
    var cs, ss := s.client.clientEntries, s.server.clientEntries;
    EventsOkAppend(cs, ss, ss, s.events, e);
    DeletionsAppend(s.events, e);
    assert Deletions(s.events + [e]) == Deletions(s.events);
    FdsAppend(s, e.fds, e);
  }

  lemma ServerCreateInv(s: State, iface: Interface)
    requires Inv(s)
    ensures Inv(DoServerCreate(s, iface))
  {
    var (m, id) := InsertNew(s.server, false, None);
    InsertNewValid(s.server, false, None);
    InsertNewTakesUntakenId(s.server, false, None, 0);
    if id == 0 {
      ServerOwnRangeInv(s, m);
    } else {
      StoreAtSlot(m, false, id, Some(iface));
      ServerOwnRangeInv(s, StoreAt(m, false, id, Some(iface)));
    }
  }

  lemma ServerEventInv(s: State, id: nat, opcode: nat, words: seq<Word>)
    requires Inv(s)
    ensures Inv(DoServerEvent(s, id, opcode, words))
  {
    var p := Posted(s.types, s.server, id, opcode, words);
    if p.Some? {
      var iface := Lookup(s.server, id).value;
      var e := Event(id, opcode, words, FreshFds(s.nextFd, CountFds(iface.events[opcode])), iface, p.value);
      PostedEventOk(s, e);
      PostInv(s, e, s.nextFd + |e.fds|);
    }
  }

  /** Nothing the server does in its own id range concerns the client's ids. */
  lemma ServerOwnRangeInv(s: State, m: ObjectMap<Interface>)
    requires Inv(s)
    requires m.Valid() && m.side == ServerSide && m.clientEntries == s.server.clientEntries
    ensures Inv(s.(server := m))
  {
  }

  lemma ExclusiveUnbind(cs: ClientSlots, ss: ServerSlots, requests: seq<NewObject>, pending: map<nat, Interface>,
                        deleting: seq<nat>, id: nat)
    requires Exclusive(cs, ss, requests, pending, deleting)
    requires 2 <= id < |ss| && ss[id].Used? && ss[id].data.Some?
    ensures Exclusive(cs, ss[id := Used(None, false)], requests, pending, deleting + [id])
  {
    assert Binds(ss, id, ss[id].data.value);
    var ss' := ss[id := Used(None, false)];
    assert forall i: nat, iface :: Binds(ss', i, iface) ==> Binds(ss, i, iface) && i != id;
    assert forall i :: i in deleting + [id] <==> i in deleting || i == id;
  }

  lemma UnbindInv(s: State, m: ObjectMap<Interface>, id: nat)
    requires Inv(s) && 2 <= id < |s.server.clientEntries|
    requires m.Valid() && m.side == ServerSide && m.clientEntries == s.server.clientEntries[id := Used(None, false)]
    requires s.server.clientEntries[id].data.Some?
    ensures Inv(s.(events := s.events + [DeleteId(id)], server := m))
  {
    var cs, ss := s.client.clientEntries, s.server.clientEntries;
    ExclusiveUnbind(cs, ss, Waiting(s), s.pending, Deleting(s), id);
    EventsOkAppend(cs, ss, m.clientEntries, s.events, DeleteId(id));
    DeletionsAppend(s.events, DeleteId(id));
    assert s.deletions + Deletions(s.events + [DeleteId(id)]) == Deleting(s) + [id];
    FdsAppend(s, [], DeleteId(id));
    assert s.fdStream + [] == s.fdStream;
  }

  lemma ServerDestroyInv(s: State, id: nat)
    requires Inv(s)
    ensures Inv(DoServerDestroy(s, id))
  {
    if id != 1 && Lookup(s.server, id).Some? {
      if IsClientId(id) {
        assert id != 0;
        StoreAtSlot(s.server, false, id, None);
        UnbindInv(s, StoreAt(s.server, false, id, None), id);
      } else {
        RemoveFreesForReuse(s.server, id, false, None, id);
        ServerOwnRangeInv(s, Remove(s.server, id));
      }
    }
  }

  // -------------------------------------------------------------------- runs

  lemma ClientStepInv(s: State, a: Action)
    requires Inv(s)
    requires a.Request? || a.Allocate? || a.SendId? || a.ClientDestroy? || a.ClientRead? || a.ClientDispatch?
    ensures Inv(Step(s, a))
  {
    match a {
      case Request(ifaces, sendFails) => RequestInv(s, ifaces, sendFails);
      case Allocate(iface) => NewProxyInv(s, iface);
      case SendId(k, sendFails) => SendIdInv(s, k, sendFails);
      case ClientDestroy(id) => ClientDestroyInv(s, id);
      case ClientRead => if s.events != [] { ClientReadInv(s); }
      case ClientDispatch => if s.deletions != [] { ClientDispatchInv(s); }
    }
  }

  lemma ServerIdStepInv(s: State, a: Action)
    requires Inv(s)
    requires a.ServerRead? || a.ServerBind?
    ensures Inv(Step(s, a))
  {
    match a {
      case ServerRead => if s.requests != [] { ServerReadInv(s); }
      case ServerBind(id) => ServerBindInv(s, id);
    }
  }

  lemma ServerStepInv(s: State, a: Action)
    requires Inv(s)
    requires a.ServerCreate? || a.ServerEvent? || a.ServerDestroy?
    ensures Inv(Step(s, a))
  {
    match a {
      case ServerCreate(iface) => ServerCreateInv(s, iface);
      case ServerEvent(id, opcode, words) => ServerEventInv(s, id, opcode, words);
      case ServerDestroy(id) => ServerDestroyInv(s, id);
    }
  }

  lemma StepInv(s: State, a: Action)
    requires Inv(s)
    ensures Inv(Step(s, a))
  {
    if a.ClientFail? {
      FailedInv(s);
    } else if a.ServerFail? {
      ServerFailedInv(s);
    } else if a.ServerRead? || a.ServerBind? {
      ServerIdStepInv(s, a);
    } else if a.ServerCreate? || a.ServerEvent? || a.ServerDestroy? {
      ServerStepInv(s, a);
    } else {
      ClientStepInv(s, a);
    }
  }

  lemma ServerFailedInv(s: State)
    requires Inv(s)
    ensures Inv(s.(serverError := true))
  {
  }

  /** The state after a list of actions of either endpoint, in any order. */
  ghost function Run(protocol: Protocol, actions: seq<Action>): (s: State)
    decreases |actions|, 0
  {
    if actions == [] then Init(protocol)
    else
      var n := |actions| - 1;
      RunInv(protocol, actions[..n]);
      Step(Run(protocol, actions[..n]), actions[n])
  }

  /** The invariant holds in every reachable state. */
  lemma {:induction false} RunInv(protocol: Protocol, actions: seq<Action>)
    ensures Inv(Run(protocol, actions))
    decreases |actions|, 1
  {
    if actions == [] {
      InitInv(protocol);
    } else {
      var n := |actions| - 1;
      RunInv(protocol, actions[..n]);
      StepInv(Run(protocol, actions[..n]), actions[n]);
    }
  }

  lemma RunExtend(protocol: Protocol, actions: seq<Action>, a: Action)
    ensures Inv(Run(protocol, actions)) && Run(protocol, actions + [a]) == Step(Run(protocol, actions), a)
  {
    RunInv(protocol, actions);
    assert (actions + [a])[..|actions|] == actions;
  }

  // ------------------------------------------------------------ main results

  /** In every reachable state the server refuses the next announced id if and only if it
      leaves a gap, which happens at most once and only after some id was announced before
      a smaller one. */
  lemma NewIdRejectedIff(protocol: Protocol, actions: seq<Action>)
    ensures var s := Run(protocol, actions);
            && (s.requests != [] ==>
                  (ReserveNew(s.server, s.requests[0].id).Err? <==> s.requests[0].id > |s.server.clientEntries|))
            && (s.rejected ==> s.announced.gap)
            && (s.announced.gap <==> LeavesGap(s.requests, |s.server.clientEntries|))
  {
    var s := Run(protocol, actions);
    RunInv(protocol, actions);
    if s.requests != [] {
      ServerReadAdmits(s);
    }
    GapUnderWay(s.requests, |s.server.clientEntries|, s.announced);
  }

  /** One of the ids under way will be too large when its turn comes. */
  predicate LeavesGap(requests: seq<NewObject>, count: nat)
    decreases |requests|
  {
    requests != [] && (requests[0].id > count ||
      LeavesGap(requests[1..], if requests[0].id == count then count + 1 else count))
  }

  lemma {:induction false} GapUnderWay(q: seq<NewObject>, count: nat, p: Progress)
    requires InOrder(q, count, p)
    ensures p.gap <==> LeavesGap(q, count)
    decreases |q|
  {
    if q != [] && q[0].id <= count {
      GapUnderWay(q[1..], if q[0].id == count then count + 1 else count, p);
    }
  }

  /** The step announces an id although a smaller one was never announced. */
  predicate RunsAhead(s: State, a: Action)
    requires s.client.Valid()
  {
    match a
    case Request(ifaces, sendFails) =>
      var (m, objects, ok) := CreateProxies(s.client, ifaces);
      ok && !s.clientError && !sendFails && Announce(s.announced, objects).gap
    case SendId(k, sendFails) =>
      k < |s.unsent| && !s.clientError && !sendFails && IsLive(s.client, s.unsent[k].id)
      && s.unsent[k].id > s.announced.count
    case _ => false
  }

  lemma OthersAnnounceNothing(s: State, a: Action)
    requires s.client.Valid() && s.server.Valid() && !a.Request? && !a.SendId?
    ensures Step(s, a).announced == s.announced
  {
    if a.ClientRead? && s.events != [] {
      ReadAnnouncesNothing(s);
    }
  }

  lemma ReadAnnouncesNothing(s: State)
    requires s.events != []
    ensures DoClientRead(s).announced == s.announced && DoClientRead(s).unsent == s.unsent
    ensures s.clientError ==> DoClientRead(s).clientError
  {
    if s.events[0].Event? {
      forall params: seq<Param>
        ensures var s' := DoReadEvent(s, params);
                s'.announced == s.announced && s'.unsent == s.unsent && (s.clientError ==> s'.clientError)
      {
        ReadEventAnnouncesNothing(s, params);
      }
    }
  }

  lemma ReadEventAnnouncesNothing(s: State, params: seq<Param>)
    requires s.events != [] && s.events[0].Event?
    ensures var s' := DoReadEvent(s, params);
            s'.announced == s.announced && s'.unsent == s.unsent && (s.clientError ==> s'.clientError)
  {
  }

  lemma GapStep(s: State, a: Action)
    requires Inv(s)
    ensures Step(s, a).announced.gap <==> s.announced.gap || RunsAhead(s, a)
  {
    if !a.Request? && !a.SendId? {
      OthersAnnounceNothing(s, a);
    } else if a.Request? {
      AnnounceKeepsGap(s.announced, CreateProxies(s.client, a.ifaces).1);
    }
  }

  lemma {:induction false} AnnounceKeepsGap(p: Progress, objects: seq<NewObject>)
    ensures p.gap ==> Announce(p, objects).gap
    decreases |objects|
  {
    if objects != [] {
      AnnounceKeepsGap(AnnounceOne(p, objects[0].id), objects[1..]);
    }
  }

  /** Some step of the run announces an id although a smaller one was never announced. */
  ghost predicate SomeStepRunsAhead(protocol: Protocol, actions: seq<Action>)
    decreases |actions|
  {
    actions != [] &&
    var n := |actions| - 1;
    RunInv(protocol, actions[..n]);
    SomeStepRunsAhead(protocol, actions[..n]) || RunsAhead(Run(protocol, actions[..n]), actions[n])
  }

  /** In every run, an id that the server refuses or will refuse is under way if and only if
      some step announced an id although a smaller one was never announced. */
  lemma {:induction false} RejectedIffAhead(protocol: Protocol, actions: seq<Action>)
    ensures var s := Run(protocol, actions);
            LeavesGap(s.requests, |s.server.clientEntries|) <==> SomeStepRunsAhead(protocol, actions)
    decreases |actions|
  {
    NewIdRejectedIff(protocol, actions);
    if actions != [] {
      var n := |actions| - 1;
      RejectedIffAhead(protocol, actions[..n]);
      NewIdRejectedIff(protocol, actions[..n]);
      RunInv(protocol, actions[..n]);
      GapStep(Run(protocol, actions[..n]), actions[n]);
    }
  }

  /** Every id the client allocated was announced, but for those of a failed display or of
      the last request before the id space was exhausted. */
  ghost predicate AllAnnounced(s: State) {
    && s.unsent == [] && !s.announced.gap
    && (s.clientError || s.announced.count == |s.client.clientEntries| || |s.client.clientEntries| > MAX_OBJECTS)
  }

  lemma {:induction false} RequestAnnounces(s: State, ifaces: seq<Interface>)
    requires Inv(s) && AllAnnounced(s)
    ensures var (m, objects, ok) := CreateProxies(s.client, ifaces);
            && |m.clientEntries| >= |s.client.clientEntries| && (!ok ==> |m.clientEntries| > MAX_OBJECTS)
            && (ok && !s.clientError ==> AllAnnounced(SendAll(s, m, objects)))
    decreases |ifaces|
  {
    var (m, objects, ok) := CreateProxies(s.client, ifaces);
    if ifaces != [] {
      var (m1, id) := InsertNew(s.client, false, Some(Proxy(ifaces[0], false)));
      var o := NewObject(id, ifaces[0]);
      NewProxyInv(s, ifaces[0]);
      NewIdIsNext(s, ifaces[0]);
      if id != 0 && s.clientError {
        RequestAnnounces(s.(client := m1), ifaces[1..]);
      } else if id != 0 {
        RequestAnnounces(SendNew(s, m1, o), ifaces[1..]);
        SendAllCons(s, m1, m, o, CreateProxies(m1, ifaces[1..]).1);
      }
    }
  }

  /** A newly allocated id was announced before or is the next one. */
  lemma NewIdIsNext(s: State, iface: Interface)
    requires Inv(s) && AllAnnounced(s)
    ensures var (m, id) := InsertNew(s.client, false, Some(Proxy(iface, false)));
            && |m.clientEntries| >= |s.client.clientEntries| && (id == 0 ==> |m.clientEntries| > MAX_OBJECTS)
            && (id != 0 && !s.clientError ==>
                  id <= s.announced.count && AllAnnounced(SendNew(s, m, NewObject(id, iface))))
            && (id != 0 && s.clientError ==> AllAnnounced(s.(client := m)))
  {
    assert s.client.free != [] ==> s.client.free[0] in s.client.free;
  }

  /** A run in which every proxy is created by the request that announces it, as all
      generated code does. */
  predicate NoLooseProxies(actions: seq<Action>) {
    forall i :: 0 <= i < |actions| ==> !actions[i].Allocate?
  }

  /** In every such run the server accepts every new id the client announces. */
  lemma {:induction false} NewIdsAreNeverRejected(protocol: Protocol, actions: seq<Action>)
    requires NoLooseProxies(actions)
    ensures var s := Run(protocol, actions);
            && AllAnnounced(s) && !s.rejected
            && (s.requests != [] ==> ReserveNew(s.server, s.requests[0].id).Ok?)
    decreases |actions|
  {
    if actions != [] {
      var n := |actions| - 1;
      NewIdsAreNeverRejected(protocol, actions[..n]);
      RunInv(protocol, actions[..n]);
      AnnouncedStep(Run(protocol, actions[..n]), actions[n]);
    }
    NewIdRejectedIff(protocol, actions);
    RunInv(protocol, actions);
    var s := Run(protocol, actions);
    if s.requests != [] {
      ServerReadAdmits(s);
    }
  }

  lemma AnnouncedStep(s: State, a: Action)
    requires Inv(s) && AllAnnounced(s) && !a.Allocate?
    ensures AllAnnounced(Step(s, a))
  {
    if a.Request? {
      RequestAnnounces(s, a.ifaces);
    } else if a.ClientDestroy? {
      AnnouncedDestroy(s, a.id);
    } else if a.ClientRead? {
      if s.events != [] {
        ReadKeepsClientIds(s);
        ReadAnnouncesNothing(s);
      }
    } else if a.ClientDispatch? {
      if s.deletions != [] {
        AnnouncedDispatch(s);
      }
    } else if !a.SendId? {
      AnnouncedOther(s, a);
    }
  }

  lemma AnnouncedDestroy(s: State, id: nat)
    requires MapsOk(s) && AllAnnounced(s)
    ensures AllAnnounced(DoClientDestroy(s, id))
  {
    if Lookup(s.client, id).Some? {
      DestroyKeepsSize(s.client, id);
    }
  }

  /** What destroying a proxy stores under its id, and freeing the id, change no length. */
  lemma DestroyKeepsSize(m: ObjectMap<ClientEntry>, id: nat)
    requires m.Valid() && m.side == ClientSide && Lookup(m, id).Some?
    ensures |Remove(m, id).clientEntries| == |m.clientEntries|
    ensures forall flag, data :: |StoreAt(m, flag, id, data).clientEntries| == |m.clientEntries|
  {
  }

  lemma AnnouncedDispatch(s: State)
    requires Inv(s) && AllAnnounced(s) && s.deletions != []
    ensures AllAnnounced(DoClientDispatch(s))
  {
    assert s.deletions[0] in Deleting(s);
    DispatchKeepsSize(s);
  }

  lemma DispatchKeepsSize(s: State)
    requires s.client.Valid() && s.deletions != []
    requires IsClientId(s.deletions[0]) && s.deletions[0] < |s.client.clientEntries|
    ensures var s' := DoClientDispatch(s);
            && s' == s.(client := s'.client, deletions := s'.deletions)
            && |s'.client.clientEntries| == |s.client.clientEntries|
  {
  }

  lemma AnnouncedOther(s: State, a: Action)
    requires MapsOk(s) && AllAnnounced(s)
    requires a.ClientFail? || a.ServerFail? || a.ServerRead? || a.ServerBind? || a.ServerCreate? || a.ServerEvent?
             || a.ServerDestroy?
    ensures AllAnnounced(Step(s, a))
  {
  }

  /** Reading an event does not touch the client's own ids. */
  lemma ReadKeepsClientIds(s: State)
    requires MapsOk(s) && s.events != []
    ensures DoClientRead(s).client.clientEntries == s.client.clientEntries
  {
    if s.events[0].Event? {
      var p := Lookup(s.client, s.events[0].id);
      if p.Some? && p.value.Proxy? && s.events[0].opcode < |p.value.iface.events| {
        ReadEventKeepsClientIds(s, p.value.iface.events[s.events[0].opcode]);
      }
    }
  }

  lemma ReadEventKeepsClientIds(s: State, params: seq<Param>)
    requires MapsOk(s) && s.events != [] && s.events[0].Event?
    ensures DoReadEvent(s, params).client.clientEntries == s.client.clientEntries
  {
    var r := ReadPayload(s.types, params, s.events[0].words);
    if r.Some? && Demarshal(s.client, r.value.created).Ok? {
      DemarshalValid(s.client, r.value.created);
    }
  }

  lemma FreeSlotQuiet(s: State, id: nat)
    requires Inv(s) && id in s.client.free
    ensures id < |s.server.clientEntries| && s.server.clientEntries[id] == Used(None, false)
    ensures id !in s.pending && id !in Deleting(s)
    ensures forall j :: 0 <= j < |Waiting(s)| ==> Waiting(s)[j].id != id
  {
    var cs, ss := s.client.clientEntries, s.server.clientEntries;
    assert cs[id].Free?;
    if ss[id].data.Some? {
      assert Binds(ss, id, ss[id].data.value);
    }
  }

  lemma FreeEventQuiet(s: State, id: nat, k: nat)
    requires Inv(s) && id in s.client.free && k < |s.events|
    ensures s.events[k] != DeleteId(id)
    ensures s.events[k].Event? ==> s.events[k].id != id && !MentionsId(s.events[k].meant, id)
  {
    var cs, ss := s.client.clientEntries, s.server.clientEntries;
    FreeSlotQuiet(s, id);
    assert cs[id].Free? && id >= 2;
    if s.events[k].DeleteId? {
      assert s.events[k..][0] == s.events[k];
      DeletionsSuffix(s.events, k, s.events[k].deleted);
    } else {
      var p := s.events[k].meant;
      assert EventOk(cs, ss, s.events[k], Deletions(s.events[k + 1..]));
      forall r | Mentions(p, r) ensures r.id != id {
        assert r.id == id ==> RefOk(cs, ss, Deletions(s.events[k + 1..]), r);
      }
      assert Creates(p.created, id) ==> Mentions(p, ObjectRef(id, None));
      forall j | 0 <= j < |p.args| ensures p.args[j].id != id {
        assert Mentions(p, p.args[j]);
      }
    }
  }

  /** In every run an id is free for reuse on the client only if the server's entry is
      NULL, no request for it waits, and no event under way names it. */
  lemma FreeIdsAreQuiet(protocol: Protocol, actions: seq<Action>, id: nat)
    requires id in Run(protocol, actions).client.free
    ensures var s := Run(protocol, actions);
            && id < |s.server.clientEntries| && s.server.clientEntries[id] == Used(None, false)
            && id !in s.pending && id !in s.deletions
            && (forall j :: 0 <= j < |s.requests| ==> s.requests[j].id != id)
            && (forall k :: 0 <= k < |s.events| ==> s.events[k] != DeleteId(id))
            && (forall k :: 0 <= k < |s.events| && s.events[k].Event? ==>
                  s.events[k].id != id && !MentionsId(s.events[k].meant, id))
  {
    var s := Run(protocol, actions);
    RunInv(protocol, actions);
    FreeSlotQuiet(s, id);
    forall j | 0 <= j < |s.requests| ensures s.requests[j].id != id {
      assert s.requests[j] == Waiting(s)[j];
    }
    forall k | 0 <= k < |s.events|
      ensures s.events[k] != DeleteId(id)
      ensures s.events[k].Event? ==> s.events[k].id != id && !MentionsId(s.events[k].meant, id)
    {
      FreeEventQuiet(s, id, k);
    }
  }

  /** An argument that the client allocated always resolves, and is of the interface named. */
  lemma RefResolves(s: State, r: ObjectRef)
    requires Inv(s) && s.events != [] && s.events[0].Event? && r in s.events[0].meant.args && IsClientId(r.id)
    ensures ResolvesObject(s.client, r)
  {
    EventsOkTail(s.client.clientEntries, s.server.clientEntries, s.events);
    assert Mentions(s.events[0].meant, r);
    if r.id != 0 {
      assert RefOk(s.client.clientEntries, s.server.clientEntries, Deletions(s.events[1..]), r);
    }
  }

  ghost predicate NamesClientIdsOnly(e: Event) {
    && e.Event? && IsClientId(e.id) && e.meant.created == []
    && forall r :: r in e.meant.args ==> IsClientId(r.id)
  }

  /** An event that names only client-allocated ids is never refused, and takes from the
      stream exactly the fds it was sent with, live or zombie. */
  lemma ClientIdEventsStayAligned(protocol: Protocol, actions: seq<Action>)
    requires var s := Run(protocol, actions);
             s.events != [] && s.aligned && NamesClientIdsOnly(s.events[0])
    ensures var s := Run(protocol, actions);
            var s', e := DoClientRead(s), s.events[0];
            && s'.clientError == s.clientError && s'.events == s.events[1..]
            && e.fds <= s.fdStream && s'.fdStream == s.fdStream[|e.fds|..] && s'.aligned
  {
    RunInv(protocol, actions);
    ClientIdEventAligned(Run(protocol, actions));
  }

  lemma ClientIdEventAligned(s: State)
    requires Inv(s) && s.events != [] && s.aligned && NamesClientIdsOnly(s.events[0])
    ensures var s', e := DoClientRead(s), s.events[0];
            && s'.clientError == s.clientError && s'.events == s.events[1..]
            && e.fds <= s.fdStream && s'.fdStream == s.fdStream[|e.fds|..] && s'.aligned
  {
    var e, p := s.events[0], Lookup(s.client, s.events[0].id);
    ClientIdSender(s);
    assert s.fdStream == e.fds + AllFds(s.events[1..]);
    if p.Some? && !IsZombie(s.client, e.id) {
      forall j | 0 <= j < |e.meant.args| ensures ResolvesObject(s.client, e.meant.args[j]) {
        RefResolves(s, e.meant.args[j]);
      }
      OwnEventRead(s);
    }
  }

  /** Reading a well posted event without new objects, whose arguments resolve. */
  lemma OwnEventRead(s: State)
    requires s.events != [] && s.events[0].Event? && WellPosted(s.types, s.events[0])
    requires var e := s.events[0];
             |e.fds| <= |s.fdStream| && e.meant.created == [] && ResolvesAll(s.client, e.meant.args)
    ensures var e := s.events[0];
            DoReadEvent(s, e.sender.events[e.opcode]) == Take(s.(events := s.events[1..]), |e.fds|, e)
  {
  }
}
