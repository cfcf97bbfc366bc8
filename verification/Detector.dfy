/** The failure detector and the log of state changes it reports, as functions on values. */
module Detector {
  import opened Types
  import opened Wire

  /** A peer is dropped when its timeout counter exceeds this many broadcast periods. */
  const PEER_TIMEOUT_FACTOR := 4

  datatype Config = Config(self: Id, multicastIdentifier: U32, frequency: U32, ignoreSameType: bool)

  datatype Peer = Peer(state: ModuleState, timeout: U32)

  /** What the core is told: the peer's new state and the one before. */
  datatype Notification = Notification(id: Id, newState: ModuleState, lastState: ModuleState)

  datatype Detector = Detector(peers: map<Id, Peer>, log: seq<Notification>)

  datatype Event = Receive(b: Broadcast) | Tick(order: seq<Id>)

  // ---- Reading a broadcast: absent fields read as zero ----

  function Number(f: Option<U64>): U64 {
    if f.Some? then f.value else 0
  }

  function SenderOf(b: Broadcast): Id {
    if b.senderId.None? then Id(0, 0)
    else Id(if b.senderId.value.typeId.Some? then b.senderId.value.typeId.value % TWO16 else 0,
            Number(b.senderId.value.instanceId))
  }

  function StateFromCode(code: U32): ModuleState {
    if code == 0 then Dead else if code == 1 then Inactive else if code == 2 then Active else Other(code)
  }

  function StateIn(b: Broadcast): ModuleState {
    if b.lifecycleState.Some? then StateFromCode(b.lifecycleState.value) else Dead
  }

  function IdentifierIn(b: Broadcast): U32 {
    if b.multicastIdentifier.Some? then b.multicastIdentifier.value else 0
  }

  function PortIn(f: Option<U32>): U32 {
    if f.Some? then f.value else 0
  }

  function VersionIn(b: Broadcast): U16 {
    if b.version.Some? then b.version.value % TWO16 else 0
  }

  function ExtraIn(b: Broadcast): seq<Byte> {
    if b.additionalStateInfos.Some? then b.additionalStateInfos.value else []
  }

  /** Of a broadcast without fields, and of a sender without them, everything reads as zero, Dead or empty; numbers that are
      too large for their place are cut to its 16 bits. */
  lemma AbsentReadsZero(b: Broadcast)
    requires b == EMPTY_BROADCAST || b == EMPTY_BROADCAST.(senderId := Some(EMPTY_SENDER))
    ensures SenderOf(b) == Id(0, 0) && StateIn(b) == Dead && IdentifierIn(b) == 0 && VersionIn(b) == 0 && ExtraIn(b) == []
    ensures PortIn(b.zmqPubPort) == 0 && PortIn(b.zmqRepPort) == 0
    ensures forall t: U32, n: U64, v: U32 ::
              var full := b.(senderId := Some(SenderId(Some(t), Some(n))), version := Some(v));
              SenderOf(full) == Id(t % 65536, n) && VersionIn(full) == v % 65536
  {
  }

  /** Own broadcasts are dropped, and those of the own type when the configuration says so. */
  predicate Ignored(c: Config, b: Broadcast) {
    || (IdentifierIn(b) == c.multicastIdentifier && SenderOf(b) == c.self)
    || (c.ignoreSameType && SenderOf(b).typeId == c.self.typeId)
  }

  // ---- Steps ----

  function Drop(d: Detector, id: Id): Detector
    requires id in d.peers
  {
    Detector(d.peers - {id}, d.log + [Notification(id, Dead, d.peers[id].state)])
  }

  /** A sign of life: the peer is (re)registered with its counter at zero, and a changed state is reported. */
  function Heard(d: Detector, id: Id, state: ModuleState): Detector {
    var last := if id in d.peers then d.peers[id].state else Dead;
    Detector(d.peers[id := Peer(state, 0)],
             if last == state then d.log else d.log + [Notification(id, state, last)])
  }

  function Reception(c: Config, d: Detector, b: Broadcast): Detector {
    var id, state := SenderOf(b), StateIn(b);
    if Ignored(c, b) then d
    else if state == Dead then (if id in d.peers then Drop(d, id) else d)
    else Heard(d, id, state)
  }

  function Bump(c: Config, p: Peer): Peer {
    p.(timeout := (p.timeout + c.frequency) % TWO32)
  }

  predicate Expires(c: Config, p: Peer) {
    Bump(c, p).timeout > (c.frequency * PEER_TIMEOUT_FACTOR) % TWO32
  }

  function Bumped(c: Config, peers: map<Id, Peer>): map<Id, Peer> {
    map id | id in peers :: Bump(c, peers[id])
  }

  lemma NoneTwice()
    ensures NoDuplicates([])
  {
  }

  lemma NoDuplicatesAppend(s: seq<Id>, id: Id)
    requires NoDuplicates(s) && id !in s
    ensures NoDuplicates(s + [id])
  {
  }

  /** The expired peers, each once, in the order in which they are dropped. */
  ghost predicate IsExpiryOrder(c: Config, d: Detector, order: seq<Id>) {
    NoDuplicates(order) && forall id :: id in order <==> id in d.peers && Expires(c, d.peers[id])
  }

  function DropAll(d: Detector, order: seq<Id>): Detector
    decreases |order|
  {
    if order == [] then d
    else
      var n := |order| - 1;
      var before := DropAll(d, order[..n]);
      if order[n] in before.peers then Drop(before, order[n]) else before
  }

  function Ticked(c: Config, d: Detector, order: seq<Id>): Detector {
    DropAll(d.(peers := Bumped(c, d.peers)), order)
  }

  function Step(c: Config, d: Detector, e: Event): Detector {
    match e
    case Receive(b) => Reception(c, d, b)
    case Tick(order) => Ticked(c, d, order)
  }

  const INITIAL := Detector(map[], [])

  function Run(c: Config, events: seq<Event>): Detector {
    if events == [] then INITIAL else Step(c, Run(c, events[..|events| - 1]), events[|events| - 1])
  }

  /** Every tick drops exactly the expired peers, in any order. */
  ghost predicate IsRun(c: Config, events: seq<Event>) {
    events != [] ==>
      var before, e := events[..|events| - 1], events[|events| - 1];
      IsRun(c, before) && (e.Tick? ==> IsExpiryOrder(c, Run(c, before), e.order))
  }

  lemma {:induction false} DropAllResult(d: Detector, order: seq<Id>)
    requires NoDuplicates(order) && forall id :: id in order ==> id in d.peers
    ensures var d' := DropAll(d, order);
            && (forall id :: id in d'.peers <==> id in d.peers && id !in order)
            && (forall id :: id in d'.peers ==> d'.peers[id] == d.peers[id])
            && |d'.log| == |d.log| + |order|
            && d'.log[..|d.log|] == d.log
            && forall i :: 0 <= i < |order| ==> d'.log[|d.log| + i] == Notification(order[i], Dead, d.peers[order[i]].state)
  {
    if order != [] {
      var n := |order| - 1;
      assert order == order[..n] + [order[n]];
      assert order[n] !in order[..n];
      DropAllResult(d, order[..n]);
    }
  }

  lemma DropNone(d: Detector, order: seq<Id>)
    ensures DropAll(d, order[..0]) == d
  {
  }

  ghost predicate CanDrop(d: Detector, order: seq<Id>) {
    NoDuplicates(order) && forall id :: id in order ==> id in d.peers
  }

  lemma DropNext(d: Detector, order: seq<Id>, i: nat)
    requires i < |order| && CanDrop(d, order)
    ensures order[i] in d.peers && order[i] in DropAll(d, order[..i]).peers
    ensures DropAll(d, order[..i + 1]) == Drop(DropAll(d, order[..i]), order[i])
  {
    DropAllResult(d, order[..i]);
    assert order[..i + 1][..i] == order[..i];
    assert order[i] in order && order[i] !in order[..i];
  }

  /** One tick: every peer's counter goes up, exactly the expired ones go, and each of those is reported dead once. */
  lemma TickResult(c: Config, d: Detector, order: seq<Id>)
    requires IsExpiryOrder(c, d, order)
    ensures var d' := Ticked(c, d, order);
            && (forall id :: id in d'.peers <==> id in d.peers && !Expires(c, d.peers[id]))
            && (forall id :: id in d'.peers ==> d'.peers[id] == Bump(c, d.peers[id]))
            && |d'.log| == |d.log| + |order| && d'.log[..|d.log|] == d.log
            && forall i :: 0 <= i < |order| ==> d'.log[|d.log| + i] == Notification(order[i], Dead, d.peers[order[i]].state)
  {
    hide DropAll, Expires;
    DropAllResult(d.(peers := Bumped(c, d.peers)), order);
  }

  // ---- The timeout bound ----

  /** The multiples of the frequency up to five do not wrap. */
  predicate NoWrap(c: Config) {
    0 < c.frequency && 5 * c.frequency < TWO32
  }

  /** The broadcast is taken as a sign of life of the peer. */
  predicate Hears(c: Config, e: Event, id: Id) {
    e.Receive? && !Ignored(c, e.b) && SenderOf(e.b) == id && StateIn(e.b) != Dead
  }

  predicate HearsDead(c: Config, e: Event, id: Id) {
    e.Receive? && !Ignored(c, e.b) && SenderOf(e.b) == id && StateIn(e.b) == Dead
  }

  function Ticks(events: seq<Event>): nat {
    if events == [] then 0
    else Ticks(events[..|events| - 1]) + if events[|events| - 1].Tick? then 1 else 0
  }

  /** The ticks after position h. */
  function TicksSince(events: seq<Event>, h: int): nat
    requires 0 <= h < |events|
  {
    Ticks(events[h + 1..])
  }

  /** Position h is the last sign of life: there is none after it, nor a goodbye, and at most four ticks. */
  ghost predicate LastHeardAt(c: Config, events: seq<Event>, id: Id, h: int) {
    && 0 <= h < |events| && Hears(c, events[h], id)
    && (forall j :: h < j < |events| ==> !Hears(c, events[j], id) && !HearsDead(c, events[j], id))
    && TicksSince(events, h) <= 4
  }

  lemma TicksAppend(events: seq<Event>, e: Event)
    ensures Ticks(events + [e]) == Ticks(events) + if e.Tick? then 1 else 0
  {
    assert (events + [e])[..|events|] == events;
  }

  lemma TimesBound(f: int, n: int)
    requires 0 < f
    ensures f * n <= f * 4 <==> n <= 4
    ensures f * n + f == f * (n + 1)
  {
    if n <= 4 {
      assert f * (4 - n) >= 0;
    } else {
      assert f * (n - 5) >= 0;
      assert f * n == f * (n - 5) + f * 5;
    }
  }

  /** A peer is registered exactly when it was heard, with at most four ticks and no goodbye since, and its counter is
      the frequency times those ticks. */
  ghost predicate Exact(c: Config, events: seq<Event>, id: Id) {
    && (id in Run(c, events).peers <==> exists h :: LastHeardAt(c, events, id, h))
    && forall h :: LastHeardAt(c, events, id, h) ==>
         id in Run(c, events).peers && Run(c, events).peers[id].timeout == c.frequency * TicksSince(events, h)
  }

  /** One event later, positions before it stand for the peer unless the event concerns the peer or is a fifth tick. */
  lemma LastHeardOneLater(c: Config, events: seq<Event>, e: Event, id: Id, h: int)
    requires 0 <= h < |events|
    ensures TicksSince(events + [e], h) == TicksSince(events, h) + if e.Tick? then 1 else 0
    ensures LastHeardAt(c, events + [e], id, h)
       <==> (LastHeardAt(c, events, id, h) && !Hears(c, e, id) && !HearsDead(c, e, id)
             && !(e.Tick? && TicksSince(events, h) == 4))
  {
    var all := events + [e];
    assert all[h + 1..] == events[h + 1..] + [e];
    TicksAppend(events[h + 1..], e);
    assert forall j :: 0 <= j < |events| ==> all[j] == events[j];
    assert all[|events|] == e;
  }

  lemma LastHeardNow(c: Config, events: seq<Event>, e: Event, id: Id)
    ensures LastHeardAt(c, events + [e], id, |events|) <==> Hears(c, e, id)
    ensures TicksSince(events + [e], |events|) == 0
  {
    assert (events + [e])[|events| + 1..] == [];
  }

  /** All positions at once. */
  lemma LastHeardLater(c: Config, events: seq<Event>, e: Event, id: Id)
    ensures forall h :: 0 <= h < |events| ==>
              TicksSince(events + [e], h) == TicksSince(events, h) + if e.Tick? then 1 else 0
    ensures forall h :: (LastHeardAt(c, events + [e], id, h)
                         <==> (if h == |events| then Hears(c, e, id)
                               else LastHeardAt(c, events, id, h) && !Hears(c, e, id) && !HearsDead(c, e, id)
                                    && !(e.Tick? && TicksSince(events, h) == 4)))
    ensures forall h :: LastHeardAt(c, events, id, h) ==> 0 <= h < |events|
    ensures TicksSince(events + [e], |events|) == 0
  {
    forall h | 0 <= h < |events|
      ensures TicksSince(events + [e], h) == TicksSince(events, h) + if e.Tick? then 1 else 0
      ensures LastHeardAt(c, events + [e], id, h)
         <==> (LastHeardAt(c, events, id, h) && !Hears(c, e, id) && !HearsDead(c, e, id)
               && !(e.Tick? && TicksSince(events, h) == 4))
    {
      LastHeardOneLater(c, events, e, id, h);
    }
    LastHeardNow(c, events, e, id);
  }

  lemma ExactAfterReception(c: Config, events: seq<Event>, b: Broadcast, id: Id)
    requires Exact(c, events, id)
    ensures Exact(c, events + [Receive(b)], id)
  {
    var e := Receive(b);
    RunAppend(c, events, e);
    LastHeardLater(c, events, e, id);
    hide Run, TicksSince;
    if Hears(c, e, id) {
      assert LastHeardAt(c, events + [e], id, |events|);
    }
  }

  lemma ExactAfterTick(c: Config, events: seq<Event>, order: seq<Id>, id: Id)
    requires NoWrap(c) && Exact(c, events, id) && IsExpiryOrder(c, Run(c, events), order)
    ensures Exact(c, events + [Tick(order)], id)
  {
    var e := Tick(order);
    RunAppend(c, events, e);
    LastHeardLater(c, events, e, id);
    var d := Run(c, events);
    assert id in Ticked(c, d, order).peers <==> id in d.peers && !Expires(c, d.peers[id]) by { TickResult(c, d, order); }
    assert id in Ticked(c, d, order).peers ==> Ticked(c, d, order).peers[id] == Bump(c, d.peers[id]) by {
      TickResult(c, d, order);
    }
    TickBound(c, events, id);
    hide Run, TicksSince, LastHeardAt, Expires, Bump, Ticked, IsExpiryOrder;
  }

  lemma RunAppend(c: Config, events: seq<Event>, e: Event)
    ensures Run(c, events + [e]) == Step(c, Run(c, events), e)
  {
    assert (events + [e])[..|events|] == events;
  }

  /** The detector is exact on every run: a silent peer goes at the fifth tick and not before, and a peer heard at least
      every four ticks never times out. */
  lemma {:induction false} RegisteredExactlyWhenHeard(c: Config, events: seq<Event>, id: Id)
    requires NoWrap(c) && IsRun(c, events)
    ensures id in Run(c, events).peers <==> exists h :: LastHeardAt(c, events, id, h)
    ensures forall h :: LastHeardAt(c, events, id, h) ==>
              id in Run(c, events).peers && Run(c, events).peers[id].timeout == c.frequency * TicksSince(events, h)
  {
    assert Exact(c, events, id) by {
      if events != [] {
        var before, e := events[..|events| - 1], events[|events| - 1];
        assert events == before + [e];
        RegisteredExactlyWhenHeard(c, before, id);
        match e {
          case Receive(b) => ExactAfterReception(c, before, b, id);
          case Tick(order) => ExactAfterTick(c, before, order, id);
        }
      }
    }
  }

  lemma OneMorePeriod(c: Config, p: Peer, k: nat)
    requires NoWrap(c) && k <= 4 && p.timeout == c.frequency * k
    ensures Bump(c, p).timeout == c.frequency * (k + 1) && (Expires(c, p) <==> k == 4)
  {
    TimesBound(c.frequency, k);
    TimesBound(c.frequency, k + 1);
    assert c.frequency * k + c.frequency < TWO32;
  }

  /** At a tick a registered peer expires exactly when this is the fifth tick since it was heard. */
  lemma TickBound(c: Config, before: seq<Event>, id: Id)
    requires NoWrap(c)
    requires forall h :: LastHeardAt(c, before, id, h) ==>
               id in Run(c, before).peers && Run(c, before).peers[id].timeout == c.frequency * TicksSince(before, h)
    ensures forall h :: LastHeardAt(c, before, id, h) ==>
              var p := Run(c, before).peers[id];
              && Bump(c, p).timeout == c.frequency * (TicksSince(before, h) + 1)
              && (Expires(c, p) <==> TicksSince(before, h) == 4)
  {
    hide Run, TicksSince, Bump, Expires;
    forall h | LastHeardAt(c, before, id, h)
      ensures var p := Run(c, before).peers[id];
              && Bump(c, p).timeout == c.frequency * (TicksSince(before, h) + 1)
              && (Expires(c, p) <==> TicksSince(before, h) == 4)
    {
      OneMorePeriod(c, Run(c, before).peers[id], TicksSince(before, h));
    }
  }

  /** In numbers, for a peer that was heard at h and has neither been heard again nor said goodbye since: it is registered
      exactly when at most four ticks followed, and its counter is then at most four periods. */
  lemma SilentPeerGoesAtFifthTick(c: Config, events: seq<Event>, id: Id, h: int)
    requires 0 < c.frequency && 5 * c.frequency < TWO32 && IsRun(c, events)
    requires 0 <= h < |events| && Hears(c, events[h], id)
    requires forall j :: h < j < |events| ==> !Hears(c, events[j], id) && !HearsDead(c, events[j], id)
    ensures id in Run(c, events).peers <==> TicksSince(events, h) <= 4
    ensures id in Run(c, events).peers ==> Run(c, events).peers[id].timeout <= 4 * c.frequency
  {
    RegisteredExactlyWhenHeard(c, events, id);
    hide Run, TicksSince, Hears, HearsDead;
    if id in Run(c, events).peers {
      var k :| LastHeardAt(c, events, id, k);
      assert k == h;
      TimesBound(c.frequency, TicksSince(events, h));
    }
  }

  // ---- The log ----

  function Known(states: map<Id, ModuleState>, id: Id): ModuleState {
    if id in states then states[id] else Dead
  }

  /** What a listener knows after a log: the last reported state of every peer that is not dead. */
  function Replay(log: seq<Notification>): map<Id, ModuleState> {
    if log == [] then map[]
    else
      var n := |log| - 1;
      var states := Replay(log[..n]);
      if log[n].newState == Dead then states - {log[n].id} else states[log[n].id := log[n].newState]
  }

  /** Every notification names the state a listener knew, and a different one. */
  ghost predicate Chained(log: seq<Notification>) {
    forall k :: 0 <= k < |log| ==>
      log[k].lastState == Known(Replay(log[..k]), log[k].id) && log[k].newState != log[k].lastState
  }

  function States(peers: map<Id, Peer>): map<Id, ModuleState> {
    map id | id in peers :: peers[id].state
  }

  /** No registered peer is recorded as dead, and the log tells exactly what is registered. */
  ghost predicate LogAgrees(d: Detector) {
    && Chained(d.log) && Replay(d.log) == States(d.peers)
    && forall id :: id in d.peers ==> d.peers[id].state != Dead
  }

  lemma ReplayAppend(log: seq<Notification>, x: Notification)
    ensures Replay(log + [x]) == if x.newState == Dead then Replay(log) - {x.id} else Replay(log)[x.id := x.newState]
    ensures Chained(log) && x.lastState == Known(Replay(log), x.id) && x.newState != x.lastState ==> Chained(log + [x])
  {
    var all := log + [x];
    assert all[..|log|] == log;
    assert forall k :: 0 <= k < |log| ==> all[..k] == log[..k];
  }

  lemma DropAgrees(d: Detector, id: Id)
    requires LogAgrees(d) && id in d.peers
    ensures LogAgrees(Drop(d, id))
  {
    ReplayAppend(d.log, Notification(id, Dead, d.peers[id].state));
  }

  lemma {:induction false} DropAllAgrees(d: Detector, order: seq<Id>)
    requires LogAgrees(d)
    ensures LogAgrees(DropAll(d, order))
  {
    if order != [] {
      var n := |order| - 1;
      DropAllAgrees(d, order[..n]);
      var before := DropAll(d, order[..n]);
      if order[n] in before.peers {
        DropAgrees(before, order[n]);
      }
    }
  }

  lemma HearAgrees(d: Detector, id: Id, state: ModuleState)
    requires LogAgrees(d) && state != Dead
    ensures LogAgrees(Heard(d, id, state))
  {
    var last := if id in d.peers then d.peers[id].state else Dead;
    assert last == Known(States(d.peers), id);
    hide Chained, Replay, States;
    StatesUpdate(d.peers, id, Peer(state, 0));
    if last == state {
      assert States(d.peers)[id := state] == States(d.peers);
    } else {
      ReplayAppend(d.log, Notification(id, state, last));
    }
  }

  lemma StatesUpdate(peers: map<Id, Peer>, id: Id, p: Peer)
    ensures States(peers[id := p]) == States(peers)[id := p.state]
  {
  }

  lemma StepAgrees(c: Config, d: Detector, e: Event)
    requires LogAgrees(d)
    ensures LogAgrees(Step(c, d, e))
  {
    hide LogAgrees;
    match e {
      case Receive(b) =>
        var id, state := SenderOf(b), StateIn(b);
        if !Ignored(c, b) {
          if state == Dead {
            if id in d.peers { DropAgrees(d, id); }
          } else {
            HearAgrees(d, id, state);
          }
        }
      case Tick(order) =>
        BumpAgrees(c, d);
        DropAllAgrees(d.(peers := Bumped(c, d.peers)), order);
    }
  }

  lemma BumpAgrees(c: Config, d: Detector)
    requires LogAgrees(d)
    ensures LogAgrees(d.(peers := Bumped(c, d.peers)))
  {
    assert States(Bumped(c, d.peers)) == States(d.peers);
  }

  /** On every run: the log is a chain per peer and replaying it rebuilds exactly the registered peers and their states. */
  lemma {:induction false} LogRebuildsRegistry(c: Config, events: seq<Event>)
    ensures LogAgrees(Run(c, events))
  {
    if events != [] {
      var before := events[..|events| - 1];
      LogRebuildsRegistry(c, before);
      StepAgrees(c, Run(c, before), events[|events| - 1]);
    }
  }

  /** What a listener knows about a peer is its latest notification. */
  lemma {:induction false} KnownIsLatest(log: seq<Notification>, id: Id, i: int)
    requires -1 <= i < |log|
    requires i >= 0 ==> log[i].id == id
    requires forall k :: i < k < |log| ==> log[k].id != id
    ensures Known(Replay(log), id) == if i >= 0 then log[i].newState else Dead
  {
    if log != [] {
      var n := |log| - 1;
      if i < n {
        KnownIsLatest(log[..n], id, i);
      }
    }
  }

  /** Per peer, in every run: the first notification starts from Dead, and each next one from where the last one ended. */
  lemma NotificationsFormChains(c: Config, events: seq<Event>, i: int, j: int)
    requires var log := Run(c, events).log;
             && -1 <= i < j < |log| && (i >= 0 ==> log[i].id == log[j].id)
             && forall k :: i < k < j ==> log[k].id != log[j].id
    ensures var log := Run(c, events).log;
            && log[j].lastState == (if i >= 0 then log[i].newState else Dead)
            && log[j].newState != log[j].lastState
  {
    LogRebuildsRegistry(c, events);
    var log := Run(c, events).log;
    KnownIsLatest(log[..j], log[j].id, i);
  }

  // ---- What the registry goes on to record ----

  /** The recorded state of a peer outlives its registration. */
  function Records(c: Config, states: map<Id, ModuleState>, e: Event): map<Id, ModuleState> {
    if e.Receive? && !Ignored(c, e.b) && StateIn(e.b) != Dead then states[SenderOf(e.b) := StateIn(e.b)] else states
  }

  function RecordedAfter(c: Config, events: seq<Event>): map<Id, ModuleState> {
    if events == [] then map[]
    else Records(c, RecordedAfter(c, events[..|events| - 1]), events[|events| - 1])
  }

  predicate WasHeard(c: Config, events: seq<Event>, id: Id) {
    exists j :: 0 <= j < |events| && Hears(c, events[j], id)
  }

  lemma WasHeardLater(c: Config, events: seq<Event>, id: Id)
    requires events != []
    ensures var n := |events| - 1;
            WasHeard(c, events, id) <==> WasHeard(c, events[..n], id) || Hears(c, events[n], id)
  {
    hide Hears;
    var n := |events| - 1;
    if j :| 0 <= j < |events| && Hears(c, events[j], id) {
      assert j < n ==> events[..n][j] == events[j];
    }
    if j :| 0 <= j < n && Hears(c, events[..n][j], id) {
      assert events[j] == events[..n][j];
    }
  }

  /** On every run, the recorded state of a peer reads Dead exactly when the peer was never heard; in particular a peer
      that was dropped or said goodbye goes on to read as alive. */
  lemma {:induction false} ReadsDeadExactlyWhenNeverHeard(c: Config, events: seq<Event>, id: Id)
    ensures Known(RecordedAfter(c, events), id) == Dead <==> !WasHeard(c, events, id)
  {
    if events != [] {
      ReadsDeadExactlyWhenNeverHeard(c, events[..|events| - 1], id);
      WasHeardLater(c, events, id);
      hide WasHeard, Ignored, SenderOf, StateIn;
    }
  }
}
