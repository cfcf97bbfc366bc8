/** The peer registry, read off the history of changes: what it holds, and in which order. */
module RegistryHistory {
  import opened Types
  import opened Registry

  // ---- Histories ----

  /** The last additional state the history gives the id: by adding it while it is not registered, or by updating it at any
      time after it was first added. */
  function LastExtra(cs: seq<Change>, id: Id): Option<seq<Byte>> {
    if cs == [] then None
    else
      var before, c := cs[..|cs| - 1], cs[|cs| - 1];
      if c.Added? && c.h.uniqueId == id && !IsRegistered(before, id) then Some(c.extra)
      else if c.UpdatedExtra? && c.id == id && WasAdded(before, id) then Some(c.extra)
      else LastExtra(before, id)
  }

  lemma {:induction false} ExtraFollowsHistory(cs: seq<Change>, id: Id)
    ensures var t := TableAfter(cs);
            && (id in t.extra <==> WasAdded(cs, id))
            && (id in t.extra ==> LastExtra(cs, id) == Some(t.extra[id]))
  {
    if cs != [] {
      ExtraFollowsHistory(cs[..|cs| - 1], id);
      TableFollowsHistory(cs[..|cs| - 1], id);
      WasAddedLater(cs, id);
      hide WasAdded, Without;
    }
  }

  /** The handle and the position of the addition that registered the id. */
  function Registration(cs: seq<Change>, id: Id): (int, Option<ModuleHandle>) {
    if cs == [] then (-1, None)
    else
      var before, c := cs[..|cs| - 1], cs[|cs| - 1];
      if c.Added? && c.h.uniqueId == id && !IsRegistered(before, id) then (|before|, Some(c.h))
      else if c == Cleared || c == Removed(id) then (-1, None)
      else Registration(before, id)
  }

  /** Since when the id reads Active. */
  function ActiveSince(cs: seq<Change>, id: Id): int {
    if cs == [] then -1
    else
      var before, c := cs[..|cs| - 1], cs[|cs| - 1];
      if c.Added? && c.h.uniqueId == id && !IsRegistered(before, id) then |before|
      else if c == Updated(id, Active) && LastGiven(before, id) != Some(Active) then |before|
      else ActiveSince(before, id)
  }

  /** The ids stand in the order of those moments, all before a bound. */
  ghost predicate Rising(ids: seq<Id>, at: Id -> int, bound: int) {
    && (forall i :: 0 <= i < |ids| ==> at(ids[i]) < bound)
    && forall i, j :: 0 <= i < j < |ids| ==> at(ids[i]) < at(ids[j])
  }

  lemma {:induction false} WithoutRises(ids: seq<Id>, id: Id, at: Id -> int, bound: int)
    requires Rising(ids, at, bound)
    ensures Rising(Without(ids, id), at, bound)
  {
    if ids != [] {
      var m := |ids| - 1;
      WithoutRises(ids[..m], id, at, at(ids[m]));
      assert Without(ids[..m], id) + [] == Without(ids[..m], id);
    }
  }

  lemma RisesStill(ids: seq<Id>, at: Id -> int, at': Id -> int, bound: int)
    requires Rising(ids, at, bound) && forall i :: 0 <= i < |ids| ==> at'(ids[i]) == at(ids[i])
    ensures Rising(ids, at', bound) && Rising(ids, at', bound + 1)
  {
  }

  lemma AppendRises(ids: seq<Id>, id: Id, at: Id -> int, bound: int)
    requires Rising(ids, at, bound) && at(id) == bound
    ensures Rising(ids + [id], at, bound + 1)
  {
  }

  /** A list that stays, loses an id, or gains one whose moment is now. */
  lemma ListRises(ids: seq<Id>, id: Id, ids': seq<Id>, at: Id -> int, at': Id -> int, now: int)
    requires Rising(ids, at, now)
    requires ids' == [] || ids' == ids || ids' == Without(ids, id) || (ids' == ids + [id] && at'(id) == now)
    requires ids' == [] || forall x :: x in ids && x in ids' ==> at'(x) == at(x)
    ensures Rising(ids', at', now + 1)
  {
    WithoutRises(ids, id, at, now);
    hide Without;
    if ids' == ids || ids' == Without(ids, id) {
      hide Rising;
      WithoutElements(ids, id);
      assert forall i :: 0 <= i < |ids'| ==> ids'[i] in ids' && ids'[i] in ids;
      RisesStill(ids', at, at', now);
    } else if ids' != [] {
      assert forall i :: 0 <= i < |ids| ==> ids[i] in ids && ids[i] in ids';
      RisesStill(ids, at, at', now);
      AppendRises(ids, id, at', now);
    }
  }

  function RegisteredAt(cs: seq<Change>): Id -> int {
    id => Registration(cs, id).0
  }

  function ActivatedAt(cs: seq<Change>): Id -> int {
    id => ActiveSince(cs, id)
  }

  lemma HandleFollows(cs: seq<Change>, id: Id)
    requires cs != []
    requires var t := TableAfter(cs[..|cs| - 1]);
             id in t.handles ==> Registration(cs[..|cs| - 1], id).1 == Some(t.handles[id])
    ensures var t := TableAfter(cs);
            id in t.handles ==> Registration(cs, id).1 == Some(t.handles[id])
  {
    hide LastGiven, WasAdded, Without;
    TableFollowsHistory(cs[..|cs| - 1], id);
  }

  /** The id a change is about. */
  function About(c: Change): Id {
    match c
    case Added(h, _, _) => h.uniqueId
    case Cleared => Id(0, 0)
    case _ => c.id
  }

  /** What a change does to the two lists. */
  lemma ListsAfter(t: Table, c: Change)
    ensures Apply(t, c).order
         == if c.Added? && c.h.uniqueId !in t.handles then t.order + [c.h.uniqueId]
            else if c.Removed? then Without(t.order, c.id) else if c.Cleared? then [] else t.order
    ensures Apply(t, c).active
         == if (c.Added? && c.h.uniqueId !in t.handles && c.state == Active)
               || (c.Updated? && c.id in t.states && t.states[c.id] != Active && c.state == Active) then t.active + [About(c)]
            else if c.Removed? || (c.Updated? && c.id in t.states && t.states[c.id] != c.state) then Without(t.active, About(c))
            else if c.Cleared? then [] else t.active
  {
    hide Without;
  }

  lemma OrderFollows(cs: seq<Change>)
    requires cs != [] && WellFormed(TableAfter(cs[..|cs| - 1]))
    requires var before := cs[..|cs| - 1]; Rising(TableAfter(before).order, RegisteredAt(before), |before|)
    ensures Rising(TableAfter(cs).order, RegisteredAt(cs), |cs|)
  {
    hide Rising, Without, NoDuplicates, WasAdded, LastGiven;
    var before, c := cs[..|cs| - 1], cs[|cs| - 1];
    var t, id := TableAfter(before), About(c);
    ListsAfter(t, c);
    TableFollowsHistory(before, id);
    WithoutElements(t.order, id);
    forall x | x in t.order && x in TableAfter(cs).order
      ensures RegisteredAt(cs)(x) == RegisteredAt(before)(x)
    {
      TableFollowsHistory(before, x);
    }
    ListRises(t.order, id, TableAfter(cs).order, RegisteredAt(before), RegisteredAt(cs), |before|);
  }

  lemma ActiveFollows(cs: seq<Change>)
    requires cs != [] && WellFormed(TableAfter(cs[..|cs| - 1]))
    requires var before := cs[..|cs| - 1]; Rising(TableAfter(before).active, ActivatedAt(before), |before|)
    ensures Rising(TableAfter(cs).active, ActivatedAt(cs), |cs|)
  {
    hide Rising, Without, NoDuplicates, WasAdded;
    var before, c := cs[..|cs| - 1], cs[|cs| - 1];
    var t, id := TableAfter(before), About(c);
    ListsAfter(t, c);
    TableFollowsHistory(before, id);
    forall x | x in t.active && x in TableAfter(cs).active
      ensures ActivatedAt(cs)(x) == ActivatedAt(before)(x)
    {
      TableFollowsHistory(before, x);
    }
    ListRises(t.active, id, TableAfter(cs).active, ActivatedAt(before), ActivatedAt(cs), |before|);
  }

  /** In every such history: a registered id stands for the handle it was registered with, the ids are listed in the order
      in which they were registered, and the active ones in the order in which they became active. */
  lemma {:induction false} ListsFollowHistory(cs: seq<Change>)
    requires Possible(cs)
    ensures var t := TableAfter(cs);
            && (forall id :: id in t.handles ==> Registration(cs, id).1 == Some(t.handles[id]))
            && Rising(t.order, RegisteredAt(cs), |cs|)
            && Rising(t.active, ActivatedAt(cs), |cs|)
  {
    if cs != [] {
      var before, c := cs[..|cs| - 1], cs[|cs| - 1];
      assert Possible(before) by { assert forall k :: 0 <= k < |before| ==> cs[..k] == before[..k]; }
      ListsFollowHistory(before);
      PossibleHistoriesKeepTable(before);
      hide Possible, Rising, TableAfter, Registration;
      forall id
        ensures id in TableAfter(cs).handles ==> Registration(cs, id).1 == Some(TableAfter(cs).handles[id])
      {
        HandleFollows(cs, id);
      }
      OrderFollows(cs);
      ActiveFollows(cs);
    }
  }

  lemma {:induction false} OfTypeRises(ids: seq<Id>, t: U16, at: Id -> int, bound: int)
    requires Rising(ids, at, bound)
    ensures Rising(OfType(ids, t), at, bound)
  {
    if ids != [] {
      var m := |ids| - 1;
      OfTypeRises(ids[..m], t, at, at(ids[m]));
      assert OfType(ids[..m], t) + [] == OfType(ids[..m], t);
    }
  }

  /** What the queries by type answer from: the registered, or active, ids of the type, the one that came first in front. */
  lemma TypeListsFollowHistory(cs: seq<Change>, u: U16)
    requires Possible(cs)
    ensures var t := TableAfter(cs);
            && (forall id :: id in OfType(t.order, u) <==> IsRegistered(cs, id) && id.typeId == u)
            && Rising(OfType(t.order, u), RegisteredAt(cs), |cs|)
            && (forall id :: id in OfType(t.active, u) <==>
                               IsRegistered(cs, id) && id.typeId == u && LastGiven(cs, id) == Some(Active))
            && Rising(OfType(t.active, u), ActivatedAt(cs), |cs|)
  {
    var t := TableAfter(cs);
    ListsFollowHistory(cs);
    PossibleHistoriesKeepTable(cs);
    hide Possible, TableAfter, IsRegistered, LastGiven, WasAdded, Rising, OfType, NoDuplicates;
    OfTypeElements(t.order, u);
    OfTypeElements(t.active, u);
    OfTypeRises(t.order, u, RegisteredAt(cs), |cs|);
    OfTypeRises(t.active, u, ActivatedAt(cs), |cs|);
    forall id
      ensures (id in t.order <==> IsRegistered(cs, id))
      ensures (id in t.active <==> IsRegistered(cs, id) && LastGiven(cs, id) == Some(Active))
    {
      TableFollowsHistory(cs, id);
    }
  }

  // ---- Queries by version ----

  /** The handle stands at some position of the list. */
  ghost predicate Contains(list: seq<ModuleHandle>, h: ModuleHandle) {
    exists k :: 0 <= k < |list| && list[k] == h
  }

  /** One handle stands before another in the list. */
  ghost predicate Before(list: seq<ModuleHandle>, g: ModuleHandle, h: ModuleHandle) {
    exists k, l :: 0 <= k < l < |list| && list[k] == g && list[l] == h
  }

  lemma AppendContains(list: seq<ModuleHandle>, x: ModuleHandle, h: ModuleHandle)
    ensures Contains(list + [x], h) <==> Contains(list, h) || h == x
  {
    var all := list + [x];
    if k :| 0 <= k < |list| && list[k] == h { assert all[k] == h; }
    assert all[|list|] == x;
  }

  lemma AppendBefore(list: seq<ModuleHandle>, x: ModuleHandle, g: ModuleHandle, h: ModuleHandle)
    ensures Before(list + [x], g, h) <==> Before(list, g, h) || (Contains(list, g) && h == x)
  {
    var all := list + [x];
    assert all[|list|] == x;
    if k, l :| 0 <= k < l < |list| && list[k] == g && list[l] == h { assert all[k] == g && all[l] == h; }
    if k :| 0 <= k < |list| && list[k] == g { assert all[k] == g && all[|list|] == x; }
    if k, l :| 0 <= k < l < |all| && all[k] == g && all[l] == h { assert list[k] == g && (l < |list| ==> list[l] == h); }
  }

  /** The handles with a version: exactly those of the list that have it, in its order. */
  lemma {:induction false} OfVersionSelects(list: seq<ModuleHandle>, v: U16, g: ModuleHandle, h: ModuleHandle)
    ensures Contains(OfVersion(list, v), h) <==> Contains(list, h) && h.version == v
    ensures Before(OfVersion(list, v), g, h) <==> Before(list, g, h) && g.version == v && h.version == v
  {
    if list != [] {
      var n := |list| - 1;
      OfVersionSelects(list[..n], v, g, h);
      OfVersionSelects(list[..n], v, h, g);
      assert list == list[..n] + [list[n]];
      AppendContains(list[..n], list[n], h);
      AppendBefore(list[..n], list[n], g, h);
      AppendContains(OfVersion(list[..n], v), list[n], h);
      AppendBefore(OfVersion(list[..n], v), list[n], g, h);
      assert OfVersion(list[..n], v) + [] == OfVersion(list[..n], v);
      hide Contains, Before;
    }
  }
}
