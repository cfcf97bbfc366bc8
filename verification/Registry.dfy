/** The peer registry: six maps that together stand for one table of peers. */
module Registry {
  import opened Types

  /** A known module. Everything but the timeout counter is fixed. */
  class ModuleHandle {
    const uniqueId: Id
    const version: U16
    const pubAddr: Addr
    const repAddr: Addr
    var peerTimeout: U32

    constructor (uniqueId: Id, version: U16, pubAddr: Addr, repAddr: Addr)
      ensures this.uniqueId == uniqueId && this.version == version
      ensures this.pubAddr == pubAddr && this.repAddr == repAddr && peerTimeout == 0
    {
      this.uniqueId, this.version, this.pubAddr, this.repAddr := uniqueId, version, pubAddr, repAddr;
      peerTimeout := 0;
    }
  }

  type ById = map<Id, ModuleHandle>
  type ByType = map<U16, seq<ModuleHandle>>

  // ---- Lists of ids ----

  function Without(ids: seq<Id>, id: Id): seq<Id> {
    if ids == [] then []
    else
      var n := |ids| - 1;
      Without(ids[..n], id) + if ids[n] == id then [] else [ids[n]]
  }

  /** The ids of one type, in order. */
  function OfType(ids: seq<Id>, t: U16): seq<Id> {
    if ids == [] then []
    else
      var n := |ids| - 1;
      OfType(ids[..n], t) + if ids[n].typeId == t then [ids[n]] else []
  }

  lemma {:induction false} WithoutElements(ids: seq<Id>, id: Id)
    ensures forall x :: x in Without(ids, id) <==> x in ids && x != id
    ensures NoDuplicates(ids) ==> NoDuplicates(Without(ids, id))
    ensures id !in ids ==> Without(ids, id) == ids
  {
    hide NoDuplicates;
    if ids != [] {
      var n := |ids| - 1;
      WithoutElements(ids[..n], id);
      assert ids == ids[..n] + [ids[n]];
      assert Without(ids[..n], id) + [] == Without(ids[..n], id);
      if NoDuplicates(ids) {
        NoDuplicatesFront(ids);
        NoDuplicatesAppend(Without(ids[..n], id), ids[n]);
      }
    } else {
      assert Without(ids, id) == ids;
    }
  }

  lemma NoDuplicatesFront(ids: seq<Id>)
    requires NoDuplicates(ids) && ids != []
    ensures NoDuplicates(ids[..|ids| - 1]) && ids[|ids| - 1] !in ids[..|ids| - 1]
  {
  }

  lemma NoDuplicatesAppend(ids: seq<Id>, id: Id)
    requires NoDuplicates(ids) && id !in ids
    ensures NoDuplicates(ids + [id])
  {
  }

  lemma {:induction false} OfTypeElements(ids: seq<Id>, t: U16)
    ensures forall x :: x in OfType(ids, t) <==> x in ids && x.typeId == t
    ensures NoDuplicates(ids) ==> NoDuplicates(OfType(ids, t))
  {
    if ids != [] {
      var n := |ids| - 1;
      OfTypeElements(ids[..n], t);
      assert ids == ids[..n] + [ids[n]];
      if NoDuplicates(ids) {
        assert ids[n] !in ids[..n];
      }
    }
  }

  lemma NoElementsIsEmpty(ids: seq<Id>)
    ensures ids != [] ==> exists x :: x in ids
  {
    if ids != [] {
      var x := ids[0];
      assert x in ids;
    }
  }

  lemma OfTypeAppend(ids: seq<Id>, id: Id, t: U16)
    ensures OfType(ids + [id], t) == OfType(ids, t) + if id.typeId == t then [id] else []
  {
    assert (ids + [id])[..|ids|] == ids;
  }

  lemma WithoutAppend(ids: seq<Id>, x: Id, id: Id)
    ensures Without(ids + [x], id) == Without(ids, id) + if x == id then [] else [x]
  {
    assert (ids + [x])[..|ids|] == ids;
  }

  /** Filtering by type and taking out an id commute. */
  lemma {:induction false} OfTypeWithout(ids: seq<Id>, id: Id, t: U16)
    ensures OfType(Without(ids, id), t) == Without(OfType(ids, t), id)
  {
    if ids != [] {
      var n := |ids| - 1;
      OfTypeWithout(ids[..n], id, t);
      OfTypeAppend(Without(ids[..n], id), ids[n], t);
      WithoutAppend(OfType(ids[..n], t), ids[n], id);
      assert Without(ids[..n], id) + [] == Without(ids[..n], id);
      assert OfType(ids[..n], t) + [] == OfType(ids[..n], t);
      assert Without(OfType(ids[..n], t), id) + [] == Without(OfType(ids[..n], t), id);
    }
  }

  /** Without duplicates, cutting out one position takes out the id. */
  lemma {:induction false} WithoutAt(ids: seq<Id>, id: Id, k: nat)
    requires NoDuplicates(ids) && k < |ids| && ids[k] == id
    ensures Without(ids, id) == ids[..k] + ids[k + 1..]
  {
    var n := |ids| - 1;
    if k == n {
      WithoutElements(ids[..n], id);
      assert ids[..k] + ids[k + 1..] == ids[..n];
    } else {
      WithoutAt(ids[..n], id, k);
      assert ids[..k] + ids[k + 1..] == ids[..n][..k] + ids[..n][k + 1..] + [ids[n]];
    }
  }

  // ---- The abstract table ----

  /** All registered ids in insertion order, the active ones in activation order, their handles, and the recorded
      states. The states of removed peers stay. */
  datatype Table = Table(
    order: seq<Id>,
    active: seq<Id>,
    handles: ById,
    states: map<Id, ModuleState>,
    extra: map<Id, seq<Byte>>)

  const EMPTY_TABLE := Table([], [], map[], map[], map[])

  /** One row per id, every row has its states, and the active list holds exactly the rows whose state is Active. */
  ghost predicate WellFormed(t: Table) {
    && NoDuplicates(t.order) && NoDuplicates(t.active)
    && HasKeys(t.handles, t.order)
    && (forall id :: id in t.handles ==> t.handles[id].uniqueId == id && id in t.states && id in t.extra)
    && (forall id :: id in t.active <==> id in t.handles && t.states[id] == Active)
  }

  function Add(t: Table, h: ModuleHandle, state: ModuleState, extra: seq<Byte>): Table {
    var id := h.uniqueId;
    if id in t.handles then t
    else Table(t.order + [id], if state == Active then t.active + [id] else t.active,
               t.handles[id := h], t.states[id := state], t.extra[id := extra])
  }

  function Remove(t: Table, id: Id): Table {
    t.(order := Without(t.order, id), active := Without(t.active, id), handles := t.handles - {id})
  }

  function Clear(t: Table): Table {
    t.(order := [], active := [], handles := map[])
  }

  /** An id with a recorded state that is not registered any more must not become active. */
  predicate CanUpdate(t: Table, id: Id, state: ModuleState) {
    id in t.handles || id !in t.states || state != Active || t.states[id] == Active
  }

  function Update(t: Table, id: Id, state: ModuleState): Table {
    if id !in t.states || t.states[id] == state then t
    else t.(active := if state == Active then t.active + [id] else Without(t.active, id),
            states := t.states[id := state])
  }

  function UpdateExtra(t: Table, id: Id, extra: seq<Byte>): Table {
    if id in t.extra then t.(extra := t.extra[id := extra]) else t
  }

  lemma AddKeeps(t: Table, h: ModuleHandle, state: ModuleState, extra: seq<Byte>)
    requires WellFormed(t)
    ensures WellFormed(Add(t, h, state, extra))
  {
  }

  lemma RemoveKeeps(t: Table, id: Id)
    requires WellFormed(t)
    ensures WellFormed(Remove(t, id))
    ensures id !in t.handles ==> Remove(t, id) == t
  {
    WithoutElements(t.order, id);
    WithoutElements(t.active, id);
    hide Without, NoDuplicates;
    if id !in t.handles {
      assert t.handles - {id} == t.handles;
    }
  }

  lemma UpdateKeeps(t: Table, id: Id, state: ModuleState)
    requires WellFormed(t) && CanUpdate(t, id, state)
    ensures WellFormed(Update(t, id, state))
  {
    WithoutElements(t.active, id);
  }

  /** The state query. */
  function StateOf(t: Table, id: Id): ModuleState {
    if id in t.states then t.states[id] else Dead
  }

  /** The documentation of the state query promises Dead for a peer that is not registered; a removed peer keeps its
      last state instead. */
  lemma StateOfRemovedPeerIsStale(h: ModuleHandle)
    ensures var t := Remove(Add(EMPTY_TABLE, h, Inactive, []), h.uniqueId);
            h.uniqueId !in t.handles && StateOf(t, h.uniqueId) == Inactive
  {
  }

  // ---- Histories ----

  datatype Change =
    | Added(h: ModuleHandle, state: ModuleState, extra: seq<Byte>)
    | Removed(id: Id)
    | Cleared
    | Updated(id: Id, state: ModuleState)
    | UpdatedExtra(id: Id, extra: seq<Byte>)

  function Apply(t: Table, c: Change): Table {
    match c
    case Added(h, state, extra) => Add(t, h, state, extra)
    case Removed(id) => Remove(t, id)
    case Cleared => Clear(t)
    case Updated(id, state) => Update(t, id, state)
    case UpdatedExtra(id, extra) => UpdateExtra(t, id, extra)
  }

  function TableAfter(cs: seq<Change>): Table {
    if cs == [] then EMPTY_TABLE else Apply(TableAfter(cs[..|cs| - 1]), cs[|cs| - 1])
  }

  /** The id was added, and neither it was removed nor everything cleared since. */
  predicate IsRegistered(cs: seq<Change>, id: Id) {
    cs != [] &&
    var before, c := cs[..|cs| - 1], cs[|cs| - 1];
    if c.Added? && c.h.uniqueId == id then true
    else if c == Cleared || c == Removed(id) then false
    else IsRegistered(before, id)
  }

  predicate WasAdded(cs: seq<Change>, id: Id) {
    exists k :: 0 <= k < |cs| && cs[k].Added? && cs[k].h.uniqueId == id
  }

  /** The last state the history gives the id: by adding it while it is not registered, or by updating it at any time
      after it was first added. */
  function LastGiven(cs: seq<Change>, id: Id): Option<ModuleState> {
    if cs == [] then None
    else
      var before, c := cs[..|cs| - 1], cs[|cs| - 1];
      if c.Added? && c.h.uniqueId == id && !IsRegistered(before, id) then Some(c.state)
      else if c.Updated? && c.id == id && WasAdded(before, id) then Some(c.state)
      else LastGiven(before, id)
  }

  lemma WasAddedLater(cs: seq<Change>, id: Id)
    requires cs != []
    ensures var before, c := cs[..|cs| - 1], cs[|cs| - 1];
            WasAdded(cs, id) <==> WasAdded(before, id) || (c.Added? && c.h.uniqueId == id)
  {
    var n := |cs| - 1;
    if k :| 0 <= k < |cs| && cs[k].Added? && cs[k].h.uniqueId == id {
      assert k < n ==> cs[..n][k] == cs[k];
    }
    if k :| 0 <= k < n && cs[..n][k].Added? && cs[..n][k].h.uniqueId == id {
      assert cs[k] == cs[..n][k];
    }
  }

  /** What the table holds about an id, from the history alone. This is said of all histories, also of those with an
      update that must not be made (UpdatableExactly); of those the registry makes only what comes before that update. */
  lemma {:induction false} TableFollowsHistory(cs: seq<Change>, id: Id)
    ensures var t := TableAfter(cs);
            && (id in t.handles <==> IsRegistered(cs, id))
            && (id in t.states <==> WasAdded(cs, id))
            && (LastGiven(cs, id).Some? <==> WasAdded(cs, id))
            && (id in t.states ==> LastGiven(cs, id) == Some(t.states[id]))
            && (IsRegistered(cs, id) ==> WasAdded(cs, id))
  {
    if cs != [] {
      TableFollowsHistory(cs[..|cs| - 1], id);
      WasAddedLater(cs, id);
      hide WasAdded, Without;
    }
  }

  /** In every history an id that is not registered reads Dead, as documented, exactly when it was never added or the last
      state it was given is Dead. */
  lemma UnregisteredReadsDeadExactly(cs: seq<Change>, id: Id)
    requires !IsRegistered(cs, id)
    ensures id !in TableAfter(cs).handles
    ensures StateOf(TableAfter(cs), id) == Dead <==> !WasAdded(cs, id) || LastGiven(cs, id) == Some(Dead)
  {
    TableFollowsHistory(cs, id);
    hide TableAfter, LastGiven, WasAdded, IsRegistered;
  }

  /** In every history an update of an id may be made exactly when the id is registered or was never added, or the update
      does not activate it, or the last state it was given is Active already. Otherwise the registry would use an empty
      handle. */
  lemma UpdatableExactly(cs: seq<Change>, id: Id, state: ModuleState)
    ensures CanUpdate(TableAfter(cs), id, state)
       <==> IsRegistered(cs, id) || !WasAdded(cs, id) || state != Active || LastGiven(cs, id) == Some(Active)
  {
    TableFollowsHistory(cs, id);
    hide TableAfter, LastGiven, WasAdded, IsRegistered;
  }

  /** Every update of the history may be made where it is made. */
  predicate Possible(cs: seq<Change>) {
    forall k :: 0 <= k < |cs| && cs[k].Updated? ==> CanUpdate(TableAfter(cs[..k]), cs[k].id, cs[k].state)
  }

  /** The table is well formed after every such history. */
  lemma {:induction false} PossibleHistoriesKeepTable(cs: seq<Change>)
    requires Possible(cs)
    ensures WellFormed(TableAfter(cs))
  {
    hide WellFormed, CanUpdate, Add, Remove, Update;
    if cs == [] {
      EmptyIsWellFormed();
    } else {
      var before, c := cs[..|cs| - 1], cs[|cs| - 1];
      assert forall k :: 0 <= k < |before| ==> cs[..k] == before[..k];
      PossibleHistoriesKeepTable(before);
      var t := TableAfter(before);
      match c {
        case Added(h, state, extra) => AddKeeps(t, h, state, extra);
        case Removed(id) => RemoveKeeps(t, id);
        case Updated(id, state) => UpdateKeeps(t, id, state);
        case _ => ClearKeeps(t, c);
      }
    }
  }

  lemma EmptyIsWellFormed()
    ensures WellFormed(EMPTY_TABLE)
  {
  }

  lemma ClearKeeps(t: Table, c: Change)
    requires WellFormed(t) && (c.Cleared? || c.UpdatedExtra?)
    ensures WellFormed(Apply(t, c))
  {
  }

  // ---- The maps by type ----

  function IdsOf(list: seq<ModuleHandle>): (ids: seq<Id>)
    ensures |ids| == |list| && forall i :: 0 <= i < |list| ==> ids[i] == list[i].uniqueId
  {
    seq(|list|, i requires 0 <= i < |list| => list[i].uniqueId)
  }

  /** The handles of a list are the ones stored under their ids. */
  ghost predicate Stored(list: seq<ModuleHandle>, handles: ById) {
    forall i :: 0 <= i < |list| ==> list[i].uniqueId in handles && handles[list[i].uniqueId] == list[i]
  }

  /** Every type list is the part of the table with that type, and no type list is empty. */
  ghost predicate Groups(byType: ByType, ids: seq<Id>, handles: ById) {
    && (forall t: U16 :: t in byType <==> OfType(ids, t) != [])
    && (forall t: U16 :: t in byType ==> IdsOf(byType[t]) == OfType(ids, t) && Stored(byType[t], handles))
  }

  ghost predicate HasKeys(byId: ById, ids: seq<Id>) {
    forall id :: id in byId <==> id in ids
  }

  /** The map of the active peers: the handles of the active ids. */
  ghost predicate SubIndex(sub: ById, ids: seq<Id>, handles: ById) {
    && HasKeys(sub, ids)
    && (forall id :: id in sub ==> id in handles && sub[id] == handles[id])
  }

  method AddModuleInternal(h: ModuleHandle, byId: ById, byType: ByType, ghost ids: seq<Id>, ghost handles: ById)
    returns (byId': ById, byType': ByType)
    requires Groups(byType, ids, handles) && h.uniqueId in handles && handles[h.uniqueId] == h
    ensures byId' == byId[h.uniqueId := h]
    ensures Groups(byType', ids + [h.uniqueId], handles)
  {
    hide OfType;
    byId' := byId[h.uniqueId := h];
    var t := h.uniqueId.typeId;
    if t in byType {
      byType' := byType[t := byType[t] + [h]];
      assert IdsOf(byType[t] + [h]) == OfType(ids, t) + [h.uniqueId];
    } else {
      byType' := byType[t := [h]];
      assert IdsOf([h]) == OfType(ids, t) + [h.uniqueId];
    }
    forall u: U16 ensures OfType(ids + [h.uniqueId], u) == OfType(ids, u) + if t == u then [h.uniqueId] else [] {
      OfTypeAppend(ids, h.uniqueId, u);
    }
    assert forall u: U16 :: OfType(ids, u) + [] == OfType(ids, u);
  }

  /** Erases the first handle with the id from a list. */
  method EraseFromList(list: seq<ModuleHandle>, id: Id, ghost handles: ById) returns (list': seq<ModuleHandle>)
    requires NoDuplicates(IdsOf(list)) && Stored(list, handles)
    ensures IdsOf(list') == Without(IdsOf(list), id) && Stored(list', handles)
  {
    hide Without;
    var i := 0;
    while i < |list|
      invariant 0 <= i <= |list|
      invariant forall j :: 0 <= j < i ==> list[j].uniqueId != id
    {
      if list[i].uniqueId == id {
        WithoutAt(IdsOf(list), id, i);
        list' := list[..i] + list[i + 1..];
        assert IdsOf(list') == IdsOf(list)[..i] + IdsOf(list)[i + 1..];
        return;
      }
      i := i + 1;
    }
    WithoutElements(IdsOf(list), id);
    list' := list;
  }

  /** Takes a peer out of a map by id and the map by type beside it. A type list of size one must hold just this peer,
      so its type goes with it. */
  method RemoveModuleInternal(id: Id, byId: ById, byType: ByType, ghost ids: seq<Id>, ghost handles: ById)
    returns (byId': ById, byType': ByType)
    requires Groups(byType, ids, handles) && NoDuplicates(ids)
    requires HasKeys(byId, ids)
    ensures byId' == byId - {id}
    ensures Groups(byType', Without(ids, id), handles)
  {
    hide OfType, Without, NoDuplicates, Groups, Stored;
    var t := id.typeId;
    GroupOfType(byType, ids, handles, id);
    if id in byId {
      byId' := byId - {id};
      var typeList := byType[t];
      OnlyElement(IdsOf(typeList), id);
      if |typeList| == 1 {
        byType' := byType - {t};
      } else {
        var list' := EraseFromList(typeList, id, handles);
        byType' := byType[t := list'];
      }
    } else {
      byId', byType' := byId, byType;
      assert byId - {id} == byId;
    }
    Regroups(byType, ids, handles, id, byType');
  }

  /** The list of the id's type, if there is one, and whether the id is in it. */
  lemma GroupOfType(byType: ByType, ids: seq<Id>, handles: ById, id: Id)
    requires Groups(byType, ids, handles) && NoDuplicates(ids)
    ensures var t := id.typeId;
            && (id in ids ==> t in byType && id in OfType(ids, t))
            && (t in byType ==> IdsOf(byType[t]) == OfType(ids, t) && Stored(byType[t], handles))
            && (t in byType <==> OfType(ids, t) != [])
            && NoDuplicates(OfType(ids, t))
            && (id !in ids ==> Without(OfType(ids, t), id) == OfType(ids, t))
  {
    hide OfType, Without, NoDuplicates, Stored;
    OfTypeElements(ids, id.typeId);
    WithoutElements(OfType(ids, id.typeId), id);
  }

  lemma OnlyElement(ids: seq<Id>, id: Id)
    requires NoDuplicates(ids) && id in ids
    ensures |ids| == 1 <==> Without(ids, id) == []
  {
    hide Without;
    WithoutElements(ids, id);
    NoElementsIsEmpty(Without(ids, id));
    if |ids| > 1 {
      var x := if ids[0] != id then ids[0] else ids[1];
      assert x in Without(ids, id);
    }
  }

  /** When only the list of the id's type changes, and it loses the id, the lists are those of the remaining ids. */
  lemma Regroups(byType: ByType, ids: seq<Id>, handles: ById, id: Id, byType': ByType)
    requires Groups(byType, ids, handles)
    requires byType' - {id.typeId} == byType - {id.typeId}
    requires id.typeId in byType' <==> Without(OfType(ids, id.typeId), id) != []
    requires id.typeId in byType' ==>
               IdsOf(byType'[id.typeId]) == Without(OfType(ids, id.typeId), id) && Stored(byType'[id.typeId], handles)
    ensures Groups(byType', Without(ids, id), handles)
  {
    hide OfType, Without, Stored;
    forall u: U16
      ensures OfType(Without(ids, id), u) == if u == id.typeId then Without(OfType(ids, u), id) else OfType(ids, u)
      ensures u != id.typeId ==> (u in byType' <==> u in byType) && (u in byType ==> byType'[u] == byType[u])
    {
      OfTypeWithout(ids, id, u);
      OfTypeElements(ids, u);
      WithoutElements(OfType(ids, u), id);
      assert u != id.typeId ==> (u in byType' <==> u in byType' - {id.typeId});
    }
  }

  lemma GroupsOverFewerHandles(byType: ByType, ids: seq<Id>, handles: ById, id: Id)
    requires Groups(byType, ids, handles) && id !in ids
    ensures Groups(byType, ids, handles - {id})
  {
    forall t: U16, i: int | t in byType && 0 <= i < |byType[t]| ensures byType[t][i].uniqueId != id {
      OfTypeElements(ids, t);
      assert IdsOf(byType[t])[i] in OfType(ids, t);
    }
  }

  lemma GroupsOverMoreHandles(byType: ByType, ids: seq<Id>, handles: ById, h: ModuleHandle)
    requires Groups(byType, ids, handles) && h.uniqueId !in handles
    ensures Groups(byType, ids, handles[h.uniqueId := h])
  {
  }

  /** The six maps stand for the table. */
  ghost predicate Represents(all: ById, byType: ByType, active: ById, activeByType: ByType, t: Table) {
    && WellFormed(t) && all == t.handles
    && SubIndex(active, t.active, t.handles)
    && Groups(byType, t.order, t.handles)
    && Groups(activeByType, t.active, t.handles)
  }

  lemma SubIndexAppend(sub: ById, ids: seq<Id>, handles: ById, h: ModuleHandle)
    requires SubIndex(sub, ids, handles)
    requires h.uniqueId in handles ==> handles[h.uniqueId] == h
    ensures SubIndex(sub[h.uniqueId := h], ids + [h.uniqueId], handles[h.uniqueId := h])
  {
  }

  lemma SubIndexWithout(sub: ById, ids: seq<Id>, handles: ById, id: Id)
    requires SubIndex(sub, ids, handles)
    ensures SubIndex(sub - {id}, Without(ids, id), handles)
    ensures SubIndex(sub - {id}, Without(ids, id), handles - {id})
  {
    WithoutElements(ids, id);
  }

  /** Before a new peer is added, its handle may be added to the table first. */
  lemma MoreHandles(all: ById, byType: ByType, active: ById, activeByType: ByType, t: Table, h: ModuleHandle)
    requires Represents(all, byType, active, activeByType, t) && h.uniqueId !in all
    ensures Groups(byType, t.order, t.handles[h.uniqueId := h])
    ensures Groups(activeByType, t.active, t.handles[h.uniqueId := h])
  {
    hide Groups, WellFormed, SubIndex;
    GroupsOverMoreHandles(byType, t.order, t.handles, h);
    GroupsOverMoreHandles(activeByType, t.active, t.handles, h);
  }

  /** The four maps after AddModuleInternal ran on the map of all peers and, for an active one, on the active map. */
  lemma AddRepresents(all: ById, byType: ByType, active: ById, activeByType: ByType, t: Table,
                      h: ModuleHandle, state: ModuleState, extra: seq<Byte>,
                      byType': ByType, active': ById, activeByType': ByType)
    requires Represents(all, byType, active, activeByType, t) && h.uniqueId !in all
    requires Groups(byType', t.order + [h.uniqueId], t.handles[h.uniqueId := h])
    requires active' == if state == Active then active[h.uniqueId := h] else active
    requires Groups(activeByType', if state == Active then t.active + [h.uniqueId] else t.active,
                    t.handles[h.uniqueId := h])
    ensures Represents(all[h.uniqueId := h], byType', active', activeByType', Add(t, h, state, extra))
  {
    hide Groups;
    AddKeeps(t, h, state, extra);
    hide WellFormed;
    SubIndexAppend(active, t.active, t.handles, h);
    assert SubIndex(active, t.active, t.handles[h.uniqueId := h]);
  }

  lemma AddStates(t: Table, h: ModuleHandle, state: ModuleState, extra: seq<Byte>)
    ensures if h.uniqueId in t.handles then Add(t, h, state, extra) == t
            else Add(t, h, state, extra).states == t.states[h.uniqueId := state]
                 && Add(t, h, state, extra).extra == t.extra[h.uniqueId := extra]
  {
  }

  lemma RemoveReady(all: ById, byType: ByType, active: ById, activeByType: ByType, t: Table)
    requires Represents(all, byType, active, activeByType, t)
    ensures HasKeys(all, t.order) && NoDuplicates(t.order) && HasKeys(active, t.active) && NoDuplicates(t.active)
    ensures Groups(byType, t.order, t.handles) && Groups(activeByType, t.active, t.handles)
  {
    hide Groups;
  }

  /** The four maps after RemoveModuleInternal ran on both pairs. */
  lemma RemoveRepresents(all: ById, byType: ByType, active: ById, activeByType: ByType, t: Table, id: Id,
                         byType': ByType, activeByType': ByType)
    requires Represents(all, byType, active, activeByType, t)
    requires Groups(byType', Without(t.order, id), t.handles) && Groups(activeByType', Without(t.active, id), t.handles)
    ensures Represents(all - {id}, byType', active - {id}, activeByType', Remove(t, id))
  {
    RemoveKeeps(t, id);
    hide WellFormed;
    WithoutElements(t.order, id);
    WithoutElements(t.active, id);
    hide Without, Groups;
    GroupsOverFewerHandles(byType', Without(t.order, id), t.handles, id);
    GroupsOverFewerHandles(activeByType', Without(t.active, id), t.handles, id);
    SubIndexWithout(active, t.active, t.handles, id);
    hide SubIndex;
  }

  /** A state change moves the peer into or out of the active maps, or leaves them. */
  lemma UpdateRepresents(all: ById, byType: ByType, active: ById, activeByType: ByType, t: Table, id: Id,
                         state: ModuleState, active': ById, activeByType': ByType)
    requires Represents(all, byType, active, activeByType, t) && CanUpdate(t, id, state)
    requires id in t.states && t.states[id] != state
    requires if state == Active then
               id in all && active' == active[id := all[id]] && Groups(activeByType', t.active + [id], t.handles)
             else if id in active then
               active' == active - {id} && Groups(activeByType', Without(t.active, id), t.handles)
             else active' == active && activeByType' == activeByType
    ensures Represents(all, byType, active', activeByType', Update(t, id, state))
  {
    hide Groups;
    UpdateKeeps(t, id, state);
    assert id in t.handles ==> t.handles[id].uniqueId == id;
    hide WellFormed;
    assert id !in t.active ==> Without(t.active, id) == t.active by { WithoutElements(t.active, id); }
    SubIndexWithout(active, t.active, t.handles, id);
    if state == Active {
      SubIndexAppend(active, t.active, t.handles, all[id]);
      assert t.handles[id := all[id]] == t.handles;
    }
  }

  lemma UpdateReady(all: ById, byType: ByType, active: ById, activeByType: ByType, t: Table, id: Id)
    requires Represents(all, byType, active, activeByType, t)
    ensures HasKeys(active, t.active) && NoDuplicates(t.active) && Groups(activeByType, t.active, t.handles)
    ensures id in active ==> id in t.states && t.states[id] == Active
    ensures id in all ==> all[id].uniqueId == id && id in t.states
  {
    hide Groups;
  }

  class PeerRegistry {
    var allPeers: ById
    var allPeersByType: ByType
    var allActivePeers: ById
    var allActivePeersByType: ByType
    var peerStates: map<Id, ModuleState>
    var peerAdditionalStates: map<Id, seq<Byte>>
    ghost var table: Table

    ghost predicate Valid()
      reads this
    {
      && Represents(allPeers, allPeersByType, allActivePeers, allActivePeersByType, table)
      && peerStates == table.states && peerAdditionalStates == table.extra
    }

    constructor ()
      ensures Valid() && table == EMPTY_TABLE
    {
      allPeers, allPeersByType, allActivePeers, allActivePeersByType := map[], map[], map[], map[];
      peerStates, peerAdditionalStates := map[], map[];
      table := EMPTY_TABLE;
    }

    method AddModule(h: ModuleHandle, state: ModuleState, extra: seq<Byte>)
      requires Valid()
      modifies this
      ensures Valid() && table == Add(old(table), h, state, extra)
    {
      hide Represents, Groups, WellFormed, Add;
      var id := h.uniqueId;
      RepresentsHandles();
      AddStates(table, h, state, extra);
      if id !in allPeers {
        ghost var t := table;
        MoreHandles(allPeers, allPeersByType, allActivePeers, allActivePeersByType, t, h);
        ghost var handles := t.handles[id := h];
        allPeers, allPeersByType := AddModuleInternal(h, allPeers, allPeersByType, t.order, handles);
        peerStates := peerStates[id := state];
        peerAdditionalStates := peerAdditionalStates[id := extra];
        if state == Active {
          allActivePeers, allActivePeersByType :=
            AddModuleInternal(h, allActivePeers, allActivePeersByType, t.active, handles);
        }
        AddRepresents(old(allPeers), old(allPeersByType), old(allActivePeers), old(allActivePeersByType), t,
                      h, state, extra, allPeersByType, allActivePeers, allActivePeersByType);
        table := Add(t, h, state, extra);
      }
    }

    /** What users of the registry need to know about its table. */
    lemma RepresentsHandles()
      requires Valid()
      ensures allPeers == table.handles && WellFormed(table) && peerStates == table.states
    {
      hide WellFormed, Groups;
    }

    lemma RegisteredIds()
      requires Valid()
      ensures allPeers == table.handles
      ensures forall id :: id in table.order <==> id in table.handles
      ensures forall id :: id in table.handles ==> table.handles[id].uniqueId == id && id in table.states && id in table.extra
    {
      RepresentsHandles();
      hide Represents;
    }

    method RemoveModule(id: Id)
      requires Valid()
      modifies this
      ensures Valid() && table == Remove(old(table), id)
    {
      hide Represents, Groups, WellFormed, HasKeys, NoDuplicates, Without;
      RepresentsHandles();
      ghost var t := table;
      if id in allPeers {
        RemoveReady(allPeers, allPeersByType, allActivePeers, allActivePeersByType, t);
        allPeers, allPeersByType := RemoveModuleInternal(id, allPeers, allPeersByType, t.order, t.handles);
        allActivePeers, allActivePeersByType :=
          RemoveModuleInternal(id, allActivePeers, allActivePeersByType, t.active, t.handles);
        RemoveRepresents(old(allPeers), old(allPeersByType), old(allActivePeers), old(allActivePeersByType), t, id,
                         allPeersByType, allActivePeersByType);
        table := Remove(t, id);
      } else {
        RemoveKeeps(t, id);
      }
    }

    method ClearRegistry()
      requires Valid()
      modifies this
      ensures Valid() && table == Clear(old(table))
    {
      allPeers, allActivePeers, allPeersByType, allActivePeersByType := map[], map[], map[], map[];
      table := Clear(table);
    }

    /** Fails where there is no handle to become active; the program goes no further then. */
    method UpdatePeerState(id: Id, state: ModuleState) returns (ok: bool)
      requires Valid()
      modifies this
      ensures Valid() && ok == CanUpdate(old(table), id, state)
      ensures table == if ok then Update(old(table), id, state) else old(table)
    {
      hide Represents, Groups, HasKeys, NoDuplicates;
      ghost var t := table;
      RepresentsHandles();
      UpdateReady(allPeers, allPeersByType, allActivePeers, allActivePeersByType, t, id);
      if id in peerStates {
        if peerStates[id] != state {
          if state == Active {
            if id !in allActivePeers {
              if id !in allPeers { return false; }
              allActivePeers, allActivePeersByType :=
                AddModuleInternal(allPeers[id], allActivePeers, allActivePeersByType, t.active, t.handles);
            }
          } else {
            if id in allActivePeers {
              allActivePeers, allActivePeersByType :=
                RemoveModuleInternal(id, allActivePeers, allActivePeersByType, t.active, t.handles);
            }
          }
          peerStates := peerStates[id := state];
          UpdateRepresents(allPeers, allPeersByType, old(allActivePeers), old(allActivePeersByType), t, id, state,
                           allActivePeers, allActivePeersByType);
        }
      }
      table := Update(t, id, state);
      ok := true;
    }

    method UpdatePeerAdditionalState(id: Id, extra: seq<Byte>)
      requires Valid()
      modifies this
      ensures Valid() && table == UpdateExtra(old(table), id, extra)
    {
      if id in peerAdditionalStates {
        peerAdditionalStates := peerAdditionalStates[id := extra];
      }
      table := UpdateExtra(table, id, extra);
    }

    // ---- Queries ----

    /** The ids a query looks at. */
    ghost function Rows(onlyActive: bool): seq<Id>
      reads this
    {
      if onlyActive then table.active else table.order
    }

    method ContainsPeerWithId(id: Id, onlyActive: bool) returns (found: bool)
      requires Valid()
      ensures found <==> id in Rows(onlyActive)
    {
      var peers := if onlyActive then allActivePeers else allPeers;
      if id in peers {
        found := !onlyActive || peerStates[id] == Active;
      } else {
        found := false;
      }
    }

    method GetPeerWithId(id: Id, onlyActive: bool) returns (peer: ModuleHandle?)
      requires Valid()
      ensures peer == if id in Rows(onlyActive) then table.handles[id] else null
    {
      var peers := if onlyActive then allActivePeers else allPeers;
      peer := null;
      if id in peers {
        if !onlyActive || peerStates[id] == Active {
          peer := peers[id];
        }
      }
    }

    /** The rows of a type: what the queries by type answer from. */
    ghost predicate IsTypeList(list: seq<ModuleHandle>, t: U16, onlyActive: bool)
      reads this
    {
      IdsOf(list) == OfType(Rows(onlyActive), t) && Stored(list, table.handles)
    }

    method GetPeersWithType(t: U16, onlyActive: bool) returns (list: seq<ModuleHandle>)
      requires Valid()
      ensures IsTypeList(list, t, onlyActive)
    {
      var peers := if onlyActive then allActivePeersByType else allPeersByType;
      list := if t in peers then peers[t] else [];
    }

    method ContainsPeerWithType(t: U16, onlyActive: bool) returns (found: bool)
      requires Valid()
      ensures found <==> exists id :: id in Rows(onlyActive) && id.typeId == t
    {
      hide OfType;
      var peers := if onlyActive then allActivePeersByType else allPeersByType;
      found := t in peers;
      OfTypeElements(Rows(onlyActive), t);
      if found { assert OfType(Rows(onlyActive), t)[0] in OfType(Rows(onlyActive), t); }
    }

    method GetAnyPeerWithType(t: U16, onlyActive: bool) returns (peer: ModuleHandle?)
      requires Valid()
      ensures var ids := OfType(Rows(onlyActive), t);
              if ids == [] then peer == null else ids[0] in table.handles && peer == table.handles[ids[0]]
    {
      hide OfType;
      var peers := if onlyActive then allActivePeersByType else allPeersByType;
      peer := null;
      if t in peers {
        assert IdsOf(peers[t])[0] == peers[t][0].uniqueId;
        peer := peers[t][0];
      }
    }

    method GetPeersWithTypeVersion(t: U16, v: U16, onlyActive: bool) returns (list: seq<ModuleHandle>)
      requires Valid()
      ensures exists typed :: IsTypeList(typed, t, onlyActive) && list == OfVersion(typed, v)
    {
      var typePeers := GetPeersWithType(t, onlyActive);
      list := [];
      for i := 0 to |typePeers|
        invariant list == OfVersion(typePeers[..i], v)
      {
        assert typePeers[..i + 1][..i] == typePeers[..i];
        if typePeers[i].version == v {
          list := list + [typePeers[i]];
        }
      }
      assert typePeers[..|typePeers|] == typePeers;
    }

    method ContainsPeerWithTypeVersion(t: U16, v: U16, onlyActive: bool) returns (found: bool)
      requires Valid()
      ensures found <==> exists id :: id in Rows(onlyActive) && id.typeId == t && id in table.handles
                                      && table.handles[id].version == v
    {
      hide OfType;
      OfTypeElements(Rows(onlyActive), t);
      var peer := GetAnyPeerWithTypeVersion(t, v, onlyActive);
      found := peer != null;
    }

    /** The first peer of the type with the version. */
    method GetAnyPeerWithTypeVersion(t: U16, v: U16, onlyActive: bool) returns (peer: ModuleHandle?)
      requires Valid()
      ensures FirstWithVersion(OfType(Rows(onlyActive), t), table.handles, v, peer)
    {
      hide OfType;
      var typePeers := GetPeersWithType(t, onlyActive);
      ghost var ids := OfType(Rows(onlyActive), t);
      for i := 0 to |typePeers|
        invariant forall j :: 0 <= j < i ==> ids[j] in table.handles && table.handles[ids[j]].version != v
      {
        assert ids[i] == typePeers[i].uniqueId && table.handles[ids[i]] == typePeers[i];
        if typePeers[i].version == v {
          return typePeers[i];
        }
      }
      peer := null;
    }

    method GetPeerState(id: Id) returns (state: ModuleState)
      requires Valid()
      ensures state == StateOf(table, id)
      ensures id in table.order ==> (state == Active <==> id in table.active)
    {
      state := if id in peerStates then peerStates[id] else Dead;
    }

    method GetPeerAdditionalState(id: Id) returns (extra: seq<Byte>)
      requires Valid()
      ensures if id in table.order then id in table.extra && extra == table.extra[id] else extra == []
    {
      extra := if id in allPeers then peerAdditionalStates[id] else [];
    }
  }

  /** The peer is the first of the rows with the version, or there is none. */
  ghost predicate FirstWithVersion(ids: seq<Id>, handles: ById, v: U16, peer: ModuleHandle?) {
    && (forall i :: 0 <= i < |ids| ==> ids[i] in handles)
    && if peer == null then forall i :: 0 <= i < |ids| ==> handles[ids[i]].version != v
       else exists k :: 0 <= k < |ids| && handles[ids[k]] == peer && peer.version == v
                        && forall j :: 0 <= j < k ==> handles[ids[j]].version != v
  }

  function OfVersion(list: seq<ModuleHandle>, v: U16): seq<ModuleHandle> {
    if list == [] then []
    else
      var n := |list| - 1;
      OfVersion(list[..n], v) + if list[n].version == v then [list[n]] else []
  }
}
