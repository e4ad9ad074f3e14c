/** wl_map as it is laid out: two growing arrays of tagged words and a free list threaded
    through the words of the vacant slots.  Each operation is proved to compute what
    `ObjectMap` says it computes. */
module SlotTable {
  import opened Wrappers
  import opened ObjectMap

  // -------------------------------------------------------------- tagged words

  /** Entry words: a pointer, which is a multiple of 4, with the flag in bit 1; or a link
      of the free list, which has bit 0 set. */
  predicate IsPointer(p: nat) { p % 4 == 0 }

  predicate IsLink(w: nat) { w % 2 == 1 }

  function DataOf(w: nat): (p: nat)
    ensures IsPointer(p)
  {
    w - w % 4
  }

  predicate FlagOf(w: nat) { w % 4 >= 2 }

  function Tagged(p: nat, flag: bool): nat { if flag then p + 2 else p }

  function LinkTo(i: nat): nat { 2 * i + 1 }

  lemma TagRoundTrip(p: nat, flag: bool)
    requires IsPointer(p)
    ensures var w := Tagged(p, flag);
            !IsLink(w) && DataOf(w) == p && FlagOf(w) == flag && (w == 0 <==> p == 0 && !flag)
    ensures forall i: nat :: IsLink(LinkTo(i)) && LinkTo(i) / 2 == i && LinkTo(i) > 0
  {
  }

  /** NULL is the absent object. */
  function Object(p: nat): Option<nat> {
    if p == 0 then None else Some(p)
  }

  // ------------------------------------------------------------- growing arrays

  /** wl_array, holding words; size and alloc count entries of 8 bytes. */
  class WordArray {
    var data: array<nat>
    var size: nat
    var alloc: nat

    ghost predicate Valid()
      reads this
    {
      size <= alloc && data.Length == alloc
    }

    ghost function Words(): (s: seq<nat>)
      requires Valid()
      reads this, data
    {
      data[..size]
    }

    constructor ()
      ensures Valid() && Words() == [] && fresh(data)
    {
      data := new nat[0];
      size, alloc := 0, 0;
    }

    /** wl_array_add of one entry: the capacity doubles until the entry fits, and the
        new entry holds whatever was there. */
    method Add()
      requires Valid()
      modifies this
      ensures Valid() && |Words()| == |old(Words())| + 1
      ensures Words()[..|old(Words())|] == old(Words())
      ensures data == old(data) || fresh(data)
    {
      var target := if alloc > 0 then alloc else 2;
      while target < size + 1
        invariant target >= alloc && target > 0
      {
        target := target * 2;
      }
      if alloc < target {
        var bigger := new nat[target];
        for i := 0 to size
          modifies bigger
          invariant bigger[..i] == data[..i]
        {
          bigger[i] := data[i];
        }
        data, alloc := bigger, target;
      }
      size := size + 1;
    }

    /** Writes a word of an existing entry. */
    method Set(i: nat, w: nat)
      requires Valid() && i < size
      modifies data
      ensures Words() == old(Words())[i := w]
    {
      data[i] := w;
    }
  }

  /** An entry is written to a slot in use or to a new slot. */
  ghost function Stored<T>(s: seq<T>, i: nat, x: T): seq<T>
    requires i <= |s|
  {
    if i < |s| then s[i := x] else s + [x]
  }

  method StoreAt(entries: WordArray, i: nat, w: nat)
    requires entries.Valid() && i <= entries.size
    modifies entries, entries.data
    ensures entries.Valid() && entries.Words() == Stored(old(entries.Words()), i, w)
    ensures entries.data == old(entries.data) || fresh(entries.data)
  {
    if i == entries.size {
      entries.Add();
    }
    entries.Set(i, w);
  }

  // ----------------------------------------------------------- the free list

  /** link starts a chain through the words that visits the slots free in order.  The
      word of the last one is 0, which has no link bit. */
  ghost predicate Chain(words: seq<nat>, link: nat, free: seq<nat>)
    decreases |free|
  {
    if free == [] then link == 0
    else link == LinkTo(free[0]) && free[0] < |words| && Chain(words, words[free[0]], free[1..])
  }

  lemma {:induction false} ChainKept(words: seq<nat>, words': seq<nat>, link: nat, free: seq<nat>)
    requires Chain(words, link, free) && |words| <= |words'|
    requires forall x :: x in free ==> x < |words| && words'[x] == words[x]
    ensures Chain(words', link, free)
    decreases |free|
  {
    if free != [] {
      assert free[0] in free && forall x :: x in free[1..] ==> x in free;
      ChainKept(words, words', words[free[0]], free[1..]);
    }
  }

  /** A vacant slot holds a link or 0, so every lookup of it finds NULL and flag 0. */
  lemma {:induction false} VacantLooksEmpty(words: seq<nat>, link: nat, free: seq<nat>, i: nat)
    requires Chain(words, link, free) && i in free
    ensures i < |words| && (IsLink(words[i]) || words[i] == 0)
    decreases |free|
  {
    if i != free[0] {
      VacantLooksEmpty(words, words[free[0]], free[1..], i);
    } else if |free| > 1 {
      assert words[i] == LinkTo(free[1]);
    }
  }

  // ------------------------------------------------------------------ the table

  function SlotOf(w: nat, vacant: bool): Slot<nat> {
    if vacant then Free else Used(Object(DataOf(w)), FlagOf(w))
  }

  ghost function Slots(words: seq<nat>, free: seq<nat>): (s: seq<Slot<nat>>)
    ensures |s| == |words|
    ensures forall i :: 0 <= i < |words| ==> s[i] == SlotOf(words[i], i in free)
  {
    seq(|words|, i requires 0 <= i < |words| => SlotOf(words[i], i in free))
  }

  /** Slots that are not vacant hold no link. */
  ghost predicate UsedUntagged(words: seq<nat>, free: seq<nat>) {
    forall i :: 0 <= i < |words| && i !in free ==> !IsLink(words[i])
  }

  /** The own side's array and its free list. */
  ghost predicate Threaded(words: seq<nat>, link: nat, free: seq<nat>) {
    && Distinct(free) && Covers(free, Slots(words, free))
    && Chain(words, link, free) && UsedUntagged(words, free)
  }

  /** The most recently vacated slot is taken. */
  lemma TakeVacant(words: seq<nat>, link: nat, free: seq<nat>, p: nat, flag: bool)
    requires Threaded(words, link, free) && link != 0 && IsPointer(p)
    ensures free != [] && link / 2 == free[0] && free[0] < |words| && free[0] <= MAX_OBJECTS
    ensures var w := words[free[0] := Tagged(p, flag)];
            && Threaded(w, words[free[0]], free[1..])
            && Slots(w, free[1..]) == Slots(words, free)[free[0] := Used(Object(p), flag)]
  {
    var i := free[0];
    var w := words[i := Tagged(p, flag)];
    assert i in free && i !in free[1..];
    assert forall x :: x in free <==> x == i || x in free[1..];
    TagRoundTrip(p, flag);
    PopCovers(free, Slots(words, free), Used(Object(p), flag));
    assert Slots(w, free[1..]) == Slots(words, free)[i := Used(Object(p), flag)];
    ChainKept(words, w, words[i], free[1..]);
  }

  lemma StoreSlots(words: seq<nat>, free: seq<nat>, i: nat, p: nat, flag: bool)
    requires IsPointer(p) && i <= |words| && i !in free
    requires UsedUntagged(words, free)
    ensures var w := Stored(words, i, Tagged(p, flag));
            && Slots(w, free) == Stored(Slots(words, free), i, Used(Object(p), flag))
            && UsedUntagged(w, free)
  {
    TagRoundTrip(p, flag);
    var w := Stored(words, i, Tagged(p, flag));
    assert Slots(w, free) == Stored(Slots(words, free), i, Used(Object(p), flag));
  }

  lemma StoreWord(words: seq<nat>, link: nat, free: seq<nat>, i: nat, p: nat, flag: bool)
    requires Threaded(words, link, free) && IsPointer(p) && i <= |words| && i !in free
    requires i > MAX_OBJECTS ==> p == 0 && !flag
    ensures var w := Stored(words, i, Tagged(p, flag));
            && Threaded(w, link, free)
            && Slots(w, free) == Stored(Slots(words, free), i, Used(Object(p), flag))
  {
    StoreSlots(words, free, i, p, flag);
    StoreCovers(free, Slots(words, free), i, Used(Object(p), flag));
    ChainKept(words, Stored(words, i, Tagged(p, flag)), link, free);
  }

  /** A slot is vacated. */
  lemma VacateSlot(words: seq<nat>, link: nat, free: seq<nat>, i: nat)
    requires Threaded(words, link, free) && i < |words| && i !in free && i <= MAX_OBJECTS
    ensures Threaded(words[i := link], LinkTo(i), [i] + free)
    ensures Slots(words[i := link], [i] + free) == Slots(words, free)[i := Free]
  {
    var words' := words[i := link];
    PushCovers(free, Slots(words, free), i);
    assert Slots(words', [i] + free) == Slots(words, free)[i := Free];
    ChainKept(words, words', link, free);
    assert ([i] + free)[1..] == free;
  }

  ghost function MapOf(side: Side, own: seq<Slot<nat>>, other: seq<Slot<nat>>, free: seq<nat>): ObjectMap<nat> {
    if side.ClientSide? then ObjectMap(side, own, other, free) else ObjectMap(side, other, own, free)
  }

  ghost function WithOwn(m: ObjectMap<nat>, own: seq<Slot<nat>>, free: seq<nat>): ObjectMap<nat> {
    MapOf(m.side, own, m.Other(), free)
  }

  ghost function WithOther(m: ObjectMap<nat>, other: seq<Slot<nat>>): ObjectMap<nat> {
    MapOf(m.side, m.Own(), other, m.free)
  }

  lemma InsertNewVacant(m: ObjectMap<nat>, flag: bool, data: Option<nat>)
    requires m.Valid() && m.free != []
    ensures var i := m.free[0];
            && i < |m.Own()|
            && InsertNew(m, flag, data) == (WithOwn(m, m.Own()[i := Used(data, flag)], m.free[1..]), i + Base(m.side))
  {
    assert m.free[0] in m.free;
  }

  lemma InsertNewAdded(m: ObjectMap<nat>, flag: bool, data: Option<nat>)
    requires m.Valid() && m.free == []
    ensures var count := |m.Own()|;
            InsertNew(m, flag, data) ==
              if count > MAX_OBJECTS then (WithOwn(m, Stored(m.Own(), count, Used(None, false)), []), 0)
              else (WithOwn(m, Stored(m.Own(), count, Used(data, flag)), []), count + Base(m.side))
  {
  }

  class ObjectTable {
    const side: Side
    const client: WordArray
    const server: WordArray
    var freeList: nat
    ghost var free: seq<nat>   // the slots the chain visits

    ghost function Own(): WordArray { if side.ClientSide? then client else server }

    ghost function Other(): WordArray { if side.ClientSide? then server else client }

    ghost predicate Arrays()
      reads client, server
    {
      && client != server && client.Valid() && server.Valid() && client.data != server.data
    }

    ghost function OwnSlots(): seq<Slot<nat>>
      requires Arrays()
      reads this, client, server, client.data, server.data
    {
      Slots(Own().Words(), free)
    }

    ghost function OtherSlots(): seq<Slot<nat>>
      requires Arrays()
      reads client, server, client.data, server.data
    {
      Slots(Other().Words(), [])
    }

    ghost predicate Valid()
      reads this, client, server, client.data, server.data
    {
      && Arrays()
      && Threaded(Own().Words(), freeList, free)
      && UsedUntagged(Other().Words(), [])
    }

    /** The map this table stands for. */
    ghost function View(): (m: ObjectMap<nat>)
      requires Valid()
      reads this, client, server, client.data, server.data
      ensures m.Valid()
    {
      MapOf(side, OwnSlots(), OtherSlots(), free)
    }

    /** wl_map_init. */
    constructor (side: Side)
      ensures Valid() && this.side == side && View() == EmptyMap(side)
      ensures fresh(client) && fresh(server) && fresh(client.data) && fresh(server.data)
    {
      this.side := side;
      client := new WordArray();
      server := new WordArray();
      freeList, free := 0, [];
    }

    method PopSlot(entries: WordArray, flag: bool, p: nat) returns (count: nat)
      requires Valid() && IsPointer(p) && freeList != 0 && entries == Own()
      modifies this, Own().data
      ensures Valid() && Own().data == old(Own().data)
      ensures old(free) != [] && count == old(free)[0] < |old(View()).Own()|
      ensures WithOwn(old(View()), old(View()).Own()[count := Used(Object(p), flag)], old(free)[1..]) == View()
    {
      TakeVacant(entries.Words(), freeList, free, p, flag);
      count := freeList / 2;
      freeList := entries.data[count];
      free := free[1..];
      ghost var words, others := entries.Words(), Other().Words();
      entries.Set(count, Tagged(p, flag));
      assert entries.Words() == words[count := Tagged(p, flag)] && Other().Words() == others;
    }

    method StoreOwn(entries: WordArray, i: nat, flag: bool, p: nat)
      requires Valid() && IsPointer(p) && entries == Own() && i <= entries.size && i !in free
      requires i > MAX_OBJECTS ==> p == 0 && !flag
      modifies Own(), Own().data
      ensures Valid() && WithOwn(old(View()), Stored(old(View()).Own(), i, Used(Object(p), flag)), free) == View()
      ensures Own().data == old(Own().data) || fresh(Own().data)
    {
      StoreWord(entries.Words(), freeList, free, i, p, flag);
      StoreAt(entries, i, Tagged(p, flag));
    }

    /** wl_map_insert_new. */
    method InsertNewEntry(flag: bool, p: nat) returns (id: nat)
      requires Valid() && IsPointer(p)
      modifies this, Own(), Own().data
      ensures Valid()
      ensures var r := InsertNew(old(View()), flag, Object(p)); View() == r.0 && id == r.1
      ensures Own().data == old(Own().data) || fresh(Own().data)
    {
      var entries := if side.ClientSide? then client else server;
      var base := if side.ClientSide? then 0 else SERVER_ID_START;
      if freeList != 0 {
        TakeVacant(entries.Words(), freeList, free, p, flag);
        InsertNewVacant(View(), flag, Object(p));
        var count := PopSlot(entries, flag, p);
        id := count + base;
      } else {
        InsertNewAdded(View(), flag, Object(p));
        var count := AddSlot(entries, flag, p);
        id := if count <= MAX_OBJECTS then count + base else 0;
      }
    }

    /** Without a vacant slot a new one is added, which stays NULL if there are too many. */
    method AddSlot(entries: WordArray, flag: bool, p: nat) returns (count: nat)
      requires Valid() && IsPointer(p) && entries == Own() && free == []
      modifies Own(), Own().data
      ensures Valid() && count == |old(View()).Own()|
      ensures var slot := if count <= MAX_OBJECTS then Used(Object(p), flag) else Used(Object(0), false);
              WithOwn(old(View()), Stored(old(View()).Own(), count, slot), []) == View()
      ensures Own().data == old(Own().data) || fresh(Own().data)
    {
      count := entries.size;
      StoreOwn(entries, count, count <= MAX_OBJECTS && flag, if count <= MAX_OBJECTS then p else 0);
    }

    method StoreOther(entries: WordArray, i: nat, flag: bool, p: nat)
      requires Valid() && IsPointer(p) && entries == Other() && i <= entries.size
      modifies Other(), Other().data
      ensures Valid() && WithOther(old(View()), Stored(old(View()).Other(), i, Used(Object(p), flag))) == View()
      ensures Other().data == old(Other().data) || fresh(Other().data)
    {
      StoreSlots(entries.Words(), [], i, p, flag);
      StoreAt(entries, i, Tagged(p, flag));
    }

    ghost function ArrayOf(id: nat): WordArray {
      if IsClientId(id) then client else server
    }

    method StoreEntry(entries: WordArray, flag: bool, id: nat, p: nat)
      requires Valid() && IsPointer(p) && entries == ArrayOf(id)
      requires Index(id) <= MAX_OBJECTS && Index(id) <= entries.size
      requires Index(id) < |Entries(View(), id)| ==> Taken(View(), id)
      modifies ArrayOf(id), ArrayOf(id).data
      ensures Valid() && InsertAt(old(View()), flag, id, Object(p)) == Ok(View())
      ensures ArrayOf(id).data == old(ArrayOf(id).data) || fresh(ArrayOf(id).data)
    {
      InsertAtInto(View(), flag, id, Object(p));
      if IsOwnId(side, id) {
        StoreOwn(entries, Index(id), flag, p);
      } else {
        StoreOther(entries, Index(id), flag, p);
      }
    }

    /** wl_map_insert_at.  A slot on the free list may not be overwritten. */
    method InsertEntryAt(flag: bool, id: nat, p: nat) returns (error: Option<Errno>)
      requires Valid() && IsPointer(p)
      requires Index(id) < |Entries(View(), id)| ==> Taken(View(), id)
      modifies ArrayOf(id), ArrayOf(id).data
      ensures Valid()
      ensures match InsertAt(old(View()), flag, id, Object(p))
              case Ok(m) => error.None? && View() == m
              case Err(e) => error == Some(e) && View() == old(View())
      ensures ArrayOf(id).data == old(ArrayOf(id).data) || fresh(ArrayOf(id).data)
    {
      var entries := if IsClientId(id) then client else server;
      var i := Index(id);
      if i > MAX_OBJECTS {
        return Some(ENOSPC);
      }
      if entries.size < i {
        return Some(EINVAL);
      }
      StoreEntry(entries, flag, id, p);
      return None;
    }

    /** wl_map_reserve_new. */
    method ReserveEntry(id: nat) returns (error: Option<Errno>)
      requires Valid()
      modifies ArrayOf(id), ArrayOf(id).data
      ensures Valid()
      ensures match ReserveNew(old(View()), id)
              case Ok(m) => error.None? && View() == m
              case Err(e) => error == Some(e) && View() == old(View())
      ensures ArrayOf(id).data == old(ArrayOf(id).data) || fresh(ArrayOf(id).data)
    {
      if IsOwnId(side, id) {
        return Some(EINVAL);
      }
      var entries := if IsClientId(id) then client else server;
      var i := Index(id);
      if i > MAX_OBJECTS {
        return Some(ENOSPC);
      }
      if entries.size < i {
        return Some(EINVAL);
      }
      ghost var r := ReserveNew(View(), id);
      ReserveInto(View(), id);
      if entries.size == i {
        StoreOther(entries, i, false, 0);
        assert r.Ok? && View() == r.value;
      } else {
        WordOccupied(entries.data[i]);
        if entries.data[i] != 0 {
          return Some(EINVAL);
        }
      }
      return None;
    }

    method PushSlot(entries: WordArray, i: nat)
      requires Valid() && entries == Own() && i < entries.size && i !in free && i <= MAX_OBJECTS
      modifies this, Own().data
      ensures Valid() && Own().data == old(Own().data)
      ensures WithOwn(old(View()), old(View()).Own()[i := Free], [i] + old(free)) == View()
    {
      VacateSlot(entries.Words(), freeList, free, i);
      ghost var words, others := entries.Words(), Other().Words();
      entries.Set(i, freeList);
      assert entries.Words() == words[i := freeList] && Other().Words() == others;
      freeList := LinkTo(i);
      free := [i] + free;
    }

    /** wl_map_remove. */
    method RemoveEntry(id: nat)
      requires Valid() && (IsOwnId(side, id) ==> Taken(View(), id) && Index(id) <= MAX_OBJECTS)
      modifies this, Own().data
      ensures Valid() && View() == Remove(old(View()), id) && Own().data == old(Own().data)
    {
      RemoveInto(View(), id);
      if IsOwnId(side, id) {
        var entries := if IsClientId(id) then client else server;
        PushSlot(entries, Index(id));
      }
    }

    /** wl_map_lookup: NULL for an id that is out of range, vacant or reserved. */
    method LookupEntry(id: nat) returns (p: nat)
      requires Valid()
      ensures Object(p) == Lookup(View(), id) && IsPointer(p)
    {
      var entries := if IsClientId(id) then client else server;
      var i := Index(id);
      p := 0;
      if i < entries.size && !IsLink(entries.data[i]) {
        p := DataOf(entries.data[i]);
      }
      LooksVacant(id);
    }

    /** wl_map_lookup_flags. */
    method LookupEntryFlags(id: nat) returns (flag: bool)
      requires Valid()
      ensures flag == LookupFlags(View(), id)
    {
      var entries := if IsClientId(id) then client else server;
      var i := Index(id);
      flag := false;
      if i < entries.size && !IsLink(entries.data[i]) {
        flag := FlagOf(entries.data[i]);
      }
      LooksVacant(id);
    }

    /** What the tag bits say of a slot agrees with the map. */
    lemma LooksVacant(id: nat)
      requires Valid()
      ensures var words := ArrayOf(id).Words();
              Index(id) < |words| ==>
                Observe(View(), id) ==
                  if IsLink(words[Index(id)]) then (None, false)
                  else (Object(DataOf(words[Index(id)])), FlagOf(words[Index(id)]))
    {
      EntriesOf(View(), id);
      if IsOwnId(side, id) {
        assert ArrayOf(id) == Own();
        WordLooks(Own().Words(), freeList, free, Index(id));
      } else {
        assert ArrayOf(id) == Other();
        WordLooks(Other().Words(), 0, [], Index(id));
      }
    }
  }

  lemma WordLooks(words: seq<nat>, link: nat, free: seq<nat>, i: nat)
    requires Chain(words, link, free) && UsedUntagged(words, free)
    ensures i < |words| ==>
              var s := Slots(words, free)[i];
              (if s.Used? then (s.data, s.flag) else (None, false)) ==
                if IsLink(words[i]) then (None, false) else (Object(DataOf(words[i])), FlagOf(words[i]))
  {
    if i in free {
      VacantLooksEmpty(words, link, free, i);
    }
  }

  lemma WordOccupied(w: nat)
    requires !IsLink(w)
    ensures Occupied(SlotOf(w, false)) <==> w != 0
  {
  }

  // How the map operations act on the own and the other side.

  lemma EntriesOf(m: ObjectMap<nat>, id: nat)
    ensures Entries(m, id) == if IsOwnId(m.side, id) then m.Own() else m.Other()
  {
  }

  lemma InsertAtInto(m: ObjectMap<nat>, flag: bool, id: nat, data: Option<nat>)
    requires Index(id) <= MAX_OBJECTS && Index(id) <= |Entries(m, id)|
    ensures Entries(m, id) == if IsOwnId(m.side, id) then m.Own() else m.Other()
    ensures InsertAt(m, flag, id, data) == Ok(
              if IsOwnId(m.side, id) then
                WithOwn(m, Stored(m.Own(), Index(id), Used(data, flag)), m.free)
              else WithOther(m, Stored(m.Other(), Index(id), Used(data, flag))))
  {
  }

  lemma ReserveInto(m: ObjectMap<nat>, id: nat)
    requires !IsOwnId(m.side, id) && Index(id) <= MAX_OBJECTS && Index(id) <= |m.Other()|
    ensures ReserveNew(m, id) ==
              if Index(id) == |m.Other()| then
                Ok(WithOther(m, Stored(m.Other(), Index(id), Used(None, false))))
              else if Occupied(m.Other()[Index(id)]) then Err(EINVAL)
              else Ok(m)
  {
  }

  lemma RemoveInto(m: ObjectMap<nat>, id: nat)
    requires IsOwnId(m.side, id) ==> Taken(m, id)
    ensures Remove(m, id) ==
              if IsOwnId(m.side, id) then
                WithOwn(m, m.Own()[Index(id) := Free], [Index(id)] + m.free)
              else m
  {
  }
}
