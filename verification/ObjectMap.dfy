/** The object map of a connection: what wl_map computes, as values.

    A map holds two arrays of slots, one for the ids the client allocates and
    one for the ids the server allocates.  Its own side's removed slots form a
    last-in first-out free list.  The class `SlotTable.ObjectTable` implements these
    operations with tagged words; `IdProtocol` joins two of them by channels. */
module ObjectMap {
  import opened Wrappers

  const SERVER_ID_START: nat := 0xff00_0000
  const MAX_OBJECTS: nat := 0x00f0_0000

  datatype Side = ClientSide | ServerSide

  /** A slot of an entry array.  `Free` slots are on the free list; `Used(None, _)`
      is a NULL entry, which a reserved or vacated id has. */
  datatype Slot<+T> = Free | Used(data: Option<T>, flag: bool)

  datatype ObjectMap<+T> = ObjectMap(
    side: Side, clientEntries: seq<Slot<T>>, serverEntries: seq<Slot<T>>, free: seq<nat>)
  {
    /** The entry array of the ids this side allocates. */
    function Own(): seq<Slot<T>> {
      if side.ClientSide? then clientEntries else serverEntries
    }

    function Other(): seq<Slot<T>> {
      if side.ClientSide? then serverEntries else clientEntries
    }

    /** The free list names exactly the free slots of the own array, each once; a
        slot past the last legal id stays NULL; the other side's array has no free slot. */
    ghost predicate Valid() {
      && Distinct(free)
      && Covers(free, Own())
      && NoneFree(Other())
    }
  }

  ghost predicate Distinct(s: seq<nat>) {
    forall i, j :: 0 <= i < j < |s| ==> s[i] != s[j]
  }

  ghost predicate Covers<T>(free: seq<nat>, own: seq<Slot<T>>) {
    && (forall x :: x in free ==> x <= MAX_OBJECTS && x < |own| && own[x].Free?)
    && (forall x :: 0 <= x < |own| && own[x].Free? ==> x in free)
    && (forall x :: MAX_OBJECTS < x < |own| ==> own[x] == Used(None, false))
  }

  ghost predicate NoneFree<T>(e: seq<Slot<T>>) {
    forall x :: 0 <= x < |e| ==> e[x].Used?
  }

  predicate IsClientId(id: nat) { id < SERVER_ID_START }

  predicate IsOwnId(side: Side, id: nat) { side.ClientSide? <==> IsClientId(id) }

  /** Position of an id in the array of the side that allocated it. */
  function Index(id: nat): (i: nat) {
    if IsClientId(id) then id else id - SERVER_ID_START
  }

  function Entries<T>(m: ObjectMap<T>, id: nat): seq<Slot<T>> {
    if IsClientId(id) then m.clientEntries else m.serverEntries
  }

  function WithEntries<T>(m: ObjectMap<T>, client: bool, e: seq<Slot<T>>): ObjectMap<T> {
    if client then m.(clientEntries := e) else m.(serverEntries := e)
  }

  function EmptyMap<T>(side: Side): ObjectMap<T> {
    ObjectMap(side, [], [], [])
  }

  function Base(side: Side): nat {
    if side.ClientSide? then 0 else SERVER_ID_START
  }

  /** Allocates an id on the own side: the most recently freed slot if there is
      one, a new slot otherwise.  Id 0 reports that the id space is exhausted. */
  function InsertNew<T>(m: ObjectMap<T>, flag: bool, data: Option<T>): (r: (ObjectMap<T>, nat))
    requires m.Valid()
  {
    var client := m.side.ClientSide?;
    if m.free != [] then
      var i := m.free[0];
      assert i in m.free;
      (WithEntries(m, client, m.Own()[i := Used(data, flag)]).(free := m.free[1..]), i + Base(m.side))
    else if |m.Own()| > MAX_OBJECTS then
      (WithEntries(m, client, m.Own() + [Used(None, false)]), 0)
    else
      (WithEntries(m, client, m.Own() + [Used(data, flag)]), |m.Own()| + Base(m.side))
  }

  /** Stores an entry under a given id, appending a slot when it is the next one. */
  function InsertAt<T>(m: ObjectMap<T>, flag: bool, id: nat, data: Option<T>): (r: Result<ObjectMap<T>>) {
    var i := Index(id);
    var e := Entries(m, id);
    if i > MAX_OBJECTS then Err(ENOSPC)
    else if |e| < i then Err(EINVAL)
    else if |e| == i then Ok(WithEntries(m, IsClientId(id), e + [Used(data, flag)]))
    else Ok(WithEntries(m, IsClientId(id), e[i := Used(data, flag)]))
  }

  /** True when the slot's word is not NULL, which is what reserving an id tests. */
  predicate Occupied<T>(s: Slot<T>) {
    s.Free? || s.data.Some? || s.flag
  }

  /** Makes room for an id the other side announced. */
  function ReserveNew<T>(m: ObjectMap<T>, id: nat): (r: Result<ObjectMap<T>>) {
    var i := Index(id);
    var e := Entries(m, id);
    if IsOwnId(m.side, id) then Err(EINVAL)
    else if i > MAX_OBJECTS then Err(ENOSPC)
    else if |e| < i then Err(EINVAL)
    else if |e| == i then Ok(WithEntries(m, IsClientId(id), e + [Used(None, false)]))
    else if Occupied(e[i]) then Err(EINVAL)
    else Ok(m)
  }

  /** Frees an id of the own side; ids of the other side are left alone. */
  function Remove<T>(m: ObjectMap<T>, id: nat): (r: ObjectMap<T>)
    requires IsOwnId(m.side, id) ==> Index(id) < |Entries(m, id)|
  {
    if !IsOwnId(m.side, id) then m
    else
      WithEntries(m, IsClientId(id), Entries(m, id)[Index(id) := Free]).(free := [Index(id)] + m.free)
  }

  function Lookup<T>(m: ObjectMap<T>, id: nat): (r: Option<T>) {
    var i := Index(id);
    var e := Entries(m, id);
    if i < |e| && e[i].Used? then e[i].data else None
  }

  predicate LookupFlags<T>(m: ObjectMap<T>, id: nat) {
    var i := Index(id);
    var e := Entries(m, id);
    i < |e| && e[i].Used? && e[i].flag
  }

  // ------------------------------------------------- what the operations do

  /** What the lookups of an id observe: its data and its flag. */
  function Observe<T>(m: ObjectMap<T>, id: nat): (Option<T>, bool) {
    (Lookup(m, id), LookupFlags(m, id))
  }

  /** An id is taken when its slot exists and is not on the free list. */
  predicate Taken<T>(m: ObjectMap<T>, id: nat) {
    Index(id) < |Entries(m, id)| && Entries(m, id)[Index(id)].Used?
  }

  predicate Exhausted<T>(m: ObjectMap<T>) {
    m.free == [] && |m.Own()| > MAX_OBJECTS
  }

  // The free list under the three changes an own array undergoes.

  lemma PopCovers<T>(free: seq<nat>, own: seq<Slot<T>>, slot: Slot<T>)
    requires free != [] && Distinct(free) && Covers(free, own) && slot.Used?
    ensures free[0] < |own| && own[free[0]].Free?
    ensures Distinct(free[1..]) && Covers(free[1..], own[free[0] := slot])
  {
    assert free[0] in free;
    assert forall x :: x in free <==> x == free[0] || x in free[1..];
  }

  lemma PushCovers<T>(free: seq<nat>, own: seq<Slot<T>>, i: nat)
    requires Distinct(free) && Covers(free, own) && i < |own| && own[i].Used? && i <= MAX_OBJECTS
    ensures Distinct([i] + free) && Covers([i] + free, own[i := Free])
  {
    assert i !in free;
  }

  lemma StoreCovers<T>(free: seq<nat>, own: seq<Slot<T>>, i: nat, slot: Slot<T>)
    requires Covers(free, own) && i <= |own| && slot.Used? && (i < |own| ==> own[i].Used?)
    requires i > MAX_OBJECTS ==> slot == Used(None, false)
    ensures Covers(free, if i < |own| then own[i := slot] else own + [slot])
  {
  }

  lemma StoreNoneFree<T>(e: seq<Slot<T>>, i: nat, slot: Slot<T>)
    requires NoneFree(e) && i <= |e| && slot.Used?
    ensures NoneFree(if i < |e| then e[i := slot] else e + [slot])
  {
  }

  /** Allocation keeps the map well formed. */
  lemma InsertNewValid<T>(m: ObjectMap<T>, flag: bool, data: Option<T>)
    requires m.Valid()
    ensures InsertNew(m, flag, data).0.Valid() && InsertNew(m, flag, data).0.side == m.side
  {
    if m.free != [] {
      PopCovers(m.free, m.Own(), Used(data, flag));
    } else {
      StoreCovers(m.free, m.Own(), |m.Own()|, if |m.Own()| > MAX_OBJECTS then Used(None, false) else Used(data, flag));
    }
  }

  /** Unless the id space is exhausted, allocation takes an id of the own range that
      was not taken, binds it, and leaves the other ids as they were.  Id 0 comes back if it
      is exhausted, and otherwise only from a client map that has no NULL object yet. */
  lemma InsertNewTakesUntakenId<T>(m: ObjectMap<T>, flag: bool, data: Option<T>, x: nat)
    requires m.Valid()
    ensures var (m', id) := InsertNew(m, flag, data);
            if Exhausted(m) then id == 0
            else
              && IsOwnId(m.side, id) && Index(id) <= MAX_OBJECTS && !Taken(m, id)
              && Taken(m', id) && Observe(m', id) == (data, flag)
    ensures m.side.ServerSide? || Taken(m, 0) ==> (InsertNew(m, flag, data).1 == 0 <==> Exhausted(m))
    ensures var (m', id) := InsertNew(m, flag, data);
            x != (if Exhausted(m) then |m.Own()| + Base(m.side) else id) ==>
              Taken(m', x) == Taken(m, x) && Observe(m', x) == Observe(m, x)
  {
    if m.free != [] {
      assert m.free[0] in m.free;
    }
    InsertNewKeepsOthers(m, flag, data, x);
  }

  lemma InsertNewKeepsOthers<T>(m: ObjectMap<T>, flag: bool, data: Option<T>, x: nat)
    requires m.Valid()
    ensures var (m', id) := InsertNew(m, flag, data);
            x != (if Exhausted(m) then |m.Own()| + Base(m.side) else id) ==>
              Taken(m', x) == Taken(m, x) && Observe(m', x) == Observe(m, x)
  {
    if m.free != [] {
      assert m.free[0] in m.free;
    }
  }

  /** Storing under an id that is not on the free list keeps the map well formed. */
  lemma InsertAtValid<T>(m: ObjectMap<T>, flag: bool, id: nat, data: Option<T>)
    requires m.Valid() && InsertAt(m, flag, id, data).Ok?
    requires Index(id) < |Entries(m, id)| ==> Taken(m, id)
    ensures var m' := InsertAt(m, flag, id, data).value;
            m'.Valid() && m'.side == m.side && m'.free == m.free
  {
    var i, e := Index(id), Entries(m, id);
    if IsOwnId(m.side, id) {
      StoreCovers(m.free, e, i, Used(data, flag));
    } else {
      StoreNoneFree(e, i, Used(data, flag));
    }
  }

  /** Storing fails only for an id out of range or leaving a gap; otherwise it binds
      that id and no other. */
  lemma InsertAtBinds<T>(m: ObjectMap<T>, flag: bool, id: nat, data: Option<T>, x: nat)
    ensures InsertAt(m, flag, id, data).Ok? <==> Index(id) <= MAX_OBJECTS && Index(id) <= |Entries(m, id)|
    ensures InsertAt(m, flag, id, data).Ok? ==>
              var m' := InsertAt(m, flag, id, data).value;
              && Taken(m', id) && Observe(m', id) == (data, flag)
              && (x != id ==> Taken(m', x) == Taken(m, x) && Observe(m', x) == Observe(m, x))
  {
  }

  /** Reserving succeeds exactly for an id of the other side that is in range, leaves
      no gap and is vacant; it keeps the map well formed and changes no observation. */
  lemma ReserveNewAdmits<T>(m: ObjectMap<T>, id: nat, x: nat)
    requires m.Valid()
    ensures ReserveNew(m, id).Ok? <==>
              && !IsOwnId(m.side, id) && Index(id) <= MAX_OBJECTS && Index(id) <= |Entries(m, id)|
              && Observe(m, id) == (None, false)
    ensures ReserveNew(m, id).Ok? ==>
              var m' := ReserveNew(m, id).value;
              && m'.Valid() && m'.side == m.side && m'.free == m.free
              && Taken(m', id) && Observe(m', x) == Observe(m, x)
  {
    var i, e := Index(id), Entries(m, id);
    if !IsOwnId(m.side, id) && i <= |e| {
      StoreNoneFree(e, |e|, Used(None, false));
    }
  }

  /** Removing a taken own id unbinds it, leaves the other ids alone and makes it the
      next id to be allocated, with the same result as overwriting it in place. */
  lemma RemoveFreesForReuse<T>(m: ObjectMap<T>, id: nat, flag: bool, data: Option<T>, x: nat)
    requires m.Valid() && IsOwnId(m.side, id) && Taken(m, id) && Index(id) <= MAX_OBJECTS
    ensures var m' := Remove(m, id);
            && m'.Valid() && m'.side == m.side && !Taken(m', id) && Observe(m', id) == (None, false)
            && (x != id ==> Taken(m', x) == Taken(m, x) && Observe(m', x) == Observe(m, x))
            && InsertNew(m', flag, data) == (InsertAt(m, flag, id, data).value, id)
  {
    var m', i := Remove(m, id), Index(id);
    PushCovers(m.free, m.Own(), i);
    assert m'.free[1..] == m.free;
    assert m.Own()[i := Free][i := Used(data, flag)] == m.Own()[i := Used(data, flag)];
  }
}
