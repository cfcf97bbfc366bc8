/** The discovery service: received broadcasts and ticks change the registry and the shared timeout counters, and are
    reported to the core. */
module Discovery {
  import opened Types
  import opened Wire
  import opened Registry
  import D = Detector

  class PeerDiscoveryService {
    const config: D.Config
    const peerRegistry: PeerRegistry
    var isStarted: bool
    var stopRequested: bool
    /** The state changes reported to the core. */
    var reported: seq<D.Notification>

    ghost predicate Valid()
      reads this, peerRegistry
    {
      && peerRegistry.Valid()
      && Live(peerRegistry.table)
    }

    /** The handles shared with the registry. */
    ghost function Handles(): set<ModuleHandle>
      reads peerRegistry
    {
      peerRegistry.table.handles.Values
    }

    /** The registered peers with their counters, and the report. */
    ghost function Abs(): D.Detector
      reads this, peerRegistry, Handles()
      requires Valid()
    {
      D.Detector(PeersOf(peerRegistry.table), reported)
    }

    constructor (config: D.Config)
      ensures Valid() && Abs() == D.INITIAL && fresh(peerRegistry) && this.config == config
      ensures !isStarted && !stopRequested
    {
      this.config := config;
      peerRegistry := new PeerRegistry();
      isStarted, stopRequested, reported := false, false, [];
    }

    /** Registers a new peer and reports it. */
    method OnPeerNew(h: ModuleHandle, state: ModuleState, extra: seq<Byte>)
      requires Valid() && h.uniqueId !in peerRegistry.table.handles && state != Dead && h.peerTimeout == 0
      modifies this`reported, peerRegistry
      ensures Valid() && Handles() <= old(Handles()) + {h}
      ensures Abs() == if isStarted && !stopRequested then D.Heard(old(Abs()), h.uniqueId, state) else old(Abs())
      ensures isStarted && !stopRequested ==> peerRegistry.table == Add(old(peerRegistry.table), h, state, extra)
    {
      hide PeerRegistry.Valid, Represents, WellFormed, Without;
      if !isStarted || stopRequested { return; }
      PeersAfterAdd(peerRegistry.table, h, state, extra);
      hide PeersOf, Live, Add;
      peerRegistry.AddModule(h, state, extra);
      reported := reported + [D.Notification(h.uniqueId, state, Dead)];
    }

    method ResetPeerTimeout(peer: ModuleHandle)
      requires Valid()
      requires peer.uniqueId in peerRegistry.table.handles && peerRegistry.table.handles[peer.uniqueId] == peer
      modifies peer`peerTimeout
      ensures Valid() && peer.uniqueId in old(Abs()).peers
      ensures Abs() == old(Abs()).(peers := old(Abs()).peers[peer.uniqueId := old(Abs()).peers[peer.uniqueId].(timeout := 0)])
    {
      hide PeerRegistry.Valid;
      peer.peerTimeout := 0;
    }

    /** A sign of life of a registered peer. */
    method OnPeerHeard(peer: ModuleHandle, state: ModuleState, extra: seq<Byte>)
      requires Valid() && state != Dead
      requires peer.uniqueId in peerRegistry.table.handles && peerRegistry.table.handles[peer.uniqueId] == peer
      modifies this`reported, peerRegistry, peer
      ensures Valid() && Handles() == old(Handles())
      ensures Abs() == D.Heard(old(Abs()), peer.uniqueId, state)
      ensures peerRegistry.table == Update(UpdateExtra(old(peerRegistry.table), peer.uniqueId, extra), peer.uniqueId, state)
    {
      hide PeerRegistry.Valid, Live, PeersOf, Update, UpdateExtra;
      var id := peer.uniqueId;
      AbsPeers(id);
      HeardInPlace(Abs().peers, id, state);
      ResetPeerTimeout(peer);
      PeersAfterUpdate(peerRegistry.table, id, state, extra);
      PeersAfterUpdate(UpdateExtra(peerRegistry.table, id, extra), id, state, extra);
      peerRegistry.UpdatePeerAdditionalState(id, extra);
      var oldState := peerRegistry.GetPeerState(id);
      UpdateSame(peerRegistry.table, id);
      if oldState != state {
        var ok := peerRegistry.UpdatePeerState(id, state);
        assert ok;
        reported := reported + [D.Notification(id, state, oldState)];
      }
    }

    /** Unregisters a peer and reports its death with its last state. */
    method OnPeerDead(id: Id)
      requires Valid() && id in peerRegistry.table.handles
      modifies this`reported, peerRegistry
      ensures Valid()
      ensures if isStarted && !stopRequested then Abs() == D.Drop(old(Abs()), id)
              else Abs() == old(Abs())
      ensures Handles() <= old(Handles()) && peerRegistry.table.states == old(peerRegistry.table.states)
    {
      hide PeerRegistry.Valid, Represents, WellFormed, Without;
      if !isStarted || stopRequested { return; }
      PeersAfterRemove(peerRegistry.table, id);
      hide PeersOf, Live;
      var lastState := peerRegistry.GetPeerState(id);
      peerRegistry.RemoveModule(id);
      reported := reported + [D.Notification(id, Dead, lastState)];
    }

    /** One broadcast. */
    method ProcessIncomingMulticast(b: Broadcast, host: nat)
      requires Valid()
      modifies this`reported, peerRegistry, Handles()
      ensures Valid() && fresh(Handles() - old(Handles()))
      ensures Abs() == if isStarted && !stopRequested then D.Reception(config, old(Abs()), b) else old(Abs())
      ensures isStarted && !stopRequested && !D.Ignored(config, b) && D.StateIn(b) != Dead ==>
                Recorded(old(peerRegistry.table), peerRegistry.table, b, host)
      ensures peerRegistry.table.states == if isStarted && !stopRequested
                                           then D.Records(config, old(peerRegistry.table.states), D.Receive(b))
                                           else old(peerRegistry.table.states)
    {
      hide Valid, Abs, PeerRegistry.Valid, Recorded, Add, D.Heard, D.Drop, Update, UpdateExtra;
      if !isStarted || stopRequested { return; }
      var peerId := D.SenderOf(b);
      var multicastId := D.IdentifierIn(b);
      if multicastId == config.multicastIdentifier && peerId == config.self { return; }
      if config.ignoreSameType && peerId.typeId == config.self.typeId { return; }
      var peerState := D.StateIn(b);
      AbsPeers(peerId);
      var peerHandle := peerRegistry.GetPeerWithId(peerId, false);
      if peerState == Dead {
        if peerHandle != null {
          OnPeerDead(peerId);
        }
      } else {
        ghost var t := peerRegistry.table;
        var extra := D.ExtraIn(b);
        if peerHandle == null {
          var pubAddr := Addr(host, D.PortIn(b.zmqPubPort));
          var repAddr := Addr(host, D.PortIn(b.zmqRepPort));
          var h := new ModuleHandle(peerId, D.VersionIn(b), pubAddr, repAddr);
          OnPeerNew(h, peerState, extra);
          NewIsRecorded(t, h, b, host);
        } else {
          OnPeerHeard(peerHandle, peerState, extra);
          HeardIsRecorded(t, b, host);
        }
      }
    }

    /** Adds a period to the counter of a peer. */
    method AddPeriodTo(peer: ModuleHandle, peerTimeout: nat, ghost p: D.Peer) returns (expires: bool)
      requires p.timeout == peer.peerTimeout && peerTimeout == (config.frequency * D.PEER_TIMEOUT_FACTOR) % TWO32
      modifies peer`peerTimeout
      ensures peer.peerTimeout == D.Bump(config, p).timeout && (expires <==> D.Expires(config, p))
    {
      peer.peerTimeout := (peer.peerTimeout + config.frequency) % TWO32;
      expires := peer.peerTimeout > peerTimeout;
    }

    /** Adds a period to every counter and collects the peers that exceed the limit. */
    method AddPeriod() returns (timedOut: seq<Id>)
      requires Valid()
      modifies Handles()
      ensures Valid() && D.IsExpiryOrder(config, old(Abs()), timedOut)
      ensures Abs() == old(Abs()).(peers := D.Bumped(config, old(Abs()).peers))
    {
      hide Valid, Abs, Registered, Live, NoDuplicates, D.Bump, D.Expires;
      D.NoneTwice();
      ghost var before := Abs();
      AbsRows();
      var peerTimeout := (config.frequency * D.PEER_TIMEOUT_FACTOR) % TWO32;
      var allPeers := peerRegistry.allPeers;
      timedOut := [];
      var left := allPeers.Keys;
      while left != {}
        invariant Valid() && left <= allPeers.Keys
        invariant forall id :: id in left ==> allPeers[id].peerTimeout == before.peers[id].timeout
        invariant forall id :: id in allPeers && id !in left ==>
                    allPeers[id].peerTimeout == D.Bump(config, before.peers[id]).timeout
        invariant NoDuplicates(timedOut)
        invariant forall id :: id in timedOut <==> id in allPeers && id !in left && D.Expires(config, before.peers[id])
        decreases left
      {
        var id :| id in left;
        left := left - {id};
        var expires := AddPeriodTo(allPeers[id], peerTimeout, before.peers[id]);
        if expires {
          D.NoDuplicatesAppend(timedOut, id);
          timedOut := timedOut + [id];
        }
      }
      AbsBumped(before);
    }

    lemma AbsBumped(before: D.Detector)
      requires Valid() && before.peers.Keys == peerRegistry.table.handles.Keys && before.log == reported
      requires forall id :: id in peerRegistry.table.handles && id in before.peers ==>
                 && id in peerRegistry.table.states && before.peers[id].state == peerRegistry.table.states[id]
                 && peerRegistry.table.handles[id].peerTimeout == D.Bump(config, before.peers[id]).timeout
      ensures Abs() == before.(peers := D.Bumped(config, before.peers))
    {
      AbsRows();
      hide Valid, Abs, PeerRegistry.Valid;
      assert Abs().peers == D.Bumped(config, before.peers);
    }

    /** Reports and unregisters peers one by one, while started and not stopping. */
    method DropTimedOut(timedOut: seq<Id>)
      requires Valid() && D.CanDrop(Abs(), timedOut)
      modifies this`reported, peerRegistry
      ensures Valid() && Abs() == if isStarted && !stopRequested then D.DropAll(old(Abs()), timedOut) else old(Abs())
      ensures peerRegistry.table.states == old(peerRegistry.table.states)
    {
      hide Valid, Abs, Handles, D.CanDrop, NoDuplicates, D.DropAll, D.Drop;
      ghost var d := Abs();
      D.DropNone(d, timedOut);
      var i := 0;
      while i < |timedOut|
        invariant 0 <= i <= |timedOut| && Valid()
        invariant Abs() == if isStarted && !stopRequested then D.DropAll(d, timedOut[..i]) else d
        invariant peerRegistry.table.states == old(peerRegistry.table.states)
      {
        D.DropNext(d, timedOut, i);
        AbsPeers(timedOut[i]);
        OnPeerDead(timedOut[i]);
        i := i + 1;
      }
      assert timedOut[..|timedOut|] == timedOut;
    }

    /** One period: adds to every counter, then drops the expired peers one by one. While not started or stopping the
        counters go up all the same, and nobody is dropped. */
    method UpdatePeerTimeouts() returns (ghost order: seq<Id>)
      requires Valid()
      modifies this`reported, peerRegistry, Handles()
      ensures Valid()
      ensures D.IsExpiryOrder(config, old(Abs()), order)
      ensures Abs() == if isStarted && !stopRequested then D.Ticked(config, old(Abs()), order)
                       else old(Abs()).(peers := D.Bumped(config, old(Abs()).peers))
      ensures peerRegistry.table.states == old(peerRegistry.table.states)
    {
      hide Valid, Abs;
      var timedOut := AddPeriod();
      DropTimedOut(timedOut);
      order := timedOut;
    }

    lemma AbsRows()
      requires Valid()
      ensures peerRegistry.allPeers == peerRegistry.table.handles && Abs().log == reported
      ensures forall id :: id in Abs().peers <==> id in peerRegistry.table.handles
      ensures forall id :: id in peerRegistry.table.handles ==>
                && peerRegistry.table.handles[id].uniqueId == id && id in peerRegistry.table.states
                && Abs().peers[id]
                   == D.Peer(peerRegistry.table.states[id], peerRegistry.table.handles[id].peerTimeout)
    {
      peerRegistry.RegisteredIds();
      hide PeerRegistry.Valid;
    }

    lemma AbsPeers(id: Id)
      requires Valid()
      ensures peerRegistry.Valid() && (id in Abs().peers <==> id in peerRegistry.table.handles)
      ensures id in peerRegistry.table.handles ==>
                && peerRegistry.table.handles[id].uniqueId == id
                && id in peerRegistry.table.states && id in peerRegistry.table.extra
      ensures id in peerRegistry.table.order <==> id in peerRegistry.table.handles
    {
      peerRegistry.RegisteredIds();
      hide PeerRegistry.Valid;
    }
  }

  lemma PeersAfterAdd(t: Table, h: ModuleHandle, state: ModuleState, extra: seq<Byte>)
    requires Live(t) && h.uniqueId !in t.handles && state != Dead
    ensures Live(Add(t, h, state, extra))
    ensures PeersOf(Add(t, h, state, extra)) == PeersOf(t)[h.uniqueId := D.Peer(state, h.peerTimeout)]
  {
  }

  lemma PeersAfterRemove(t: Table, id: Id)
    requires Live(t)
    ensures Live(Remove(t, id)) && PeersOf(Remove(t, id)) == PeersOf(t) - {id}
  {
  }

  lemma PeersAfterUpdate(t: Table, id: Id, state: ModuleState, extra: seq<Byte>)
    requires Live(t) && id in t.handles && state != Dead
    ensures Live(Update(t, id, state)) && Live(UpdateExtra(t, id, extra))
    ensures PeersOf(Update(t, id, state)) == PeersOf(t)[id := PeersOf(t)[id].(state := state)]
    ensures PeersOf(UpdateExtra(t, id, extra)) == PeersOf(t)
    ensures id in PeersOf(t) && PeersOf(t)[id].state == StateOf(t, id)
    ensures UpdateExtra(t, id, extra).states == t.states && id in t.states
    ensures Update(t, id, state).handles == UpdateExtra(t, id, extra).handles == t.handles
  {
  }

  /** The table holds what the broadcast says about its sender: a known peer keeps its handle, a new one gets the version
      and, at the sender's host, the ports of the broadcast. Other rows stay. */
  ghost predicate Recorded(t: Table, t': Table, b: Broadcast, host: nat) {
    var id := D.SenderOf(b);
    && id in t'.handles && id in t'.states && t'.states[id] == D.StateIn(b)
    && id in t'.extra && t'.extra[id] == D.ExtraIn(b)
    && (if id in t.handles then t'.handles == t.handles
        else
          && t'.handles - {id} == t.handles
          && t'.handles[id].version == D.VersionIn(b)
          && t'.handles[id].pubAddr == Addr(host, D.PortIn(b.zmqPubPort))
          && t'.handles[id].repAddr == Addr(host, D.PortIn(b.zmqRepPort)))
    && t'.states == t.states[id := D.StateIn(b)] && t'.extra - {id} == t.extra - {id}
  }

  lemma NewIsRecorded(t: Table, h: ModuleHandle, b: Broadcast, host: nat)
    requires h.uniqueId == D.SenderOf(b) && h.uniqueId !in t.handles && h.version == D.VersionIn(b)
    requires h.pubAddr == Addr(host, D.PortIn(b.zmqPubPort)) && h.repAddr == Addr(host, D.PortIn(b.zmqRepPort))
    ensures Recorded(t, Add(t, h, D.StateIn(b), D.ExtraIn(b)), b, host)
    ensures Add(t, h, D.StateIn(b), D.ExtraIn(b)).states == t.states[h.uniqueId := D.StateIn(b)]
  {
    hide D.SenderOf, D.StateIn, D.ExtraIn, D.VersionIn, D.PortIn;
    var id := h.uniqueId;
    assert t.handles[id := h] - {id} == t.handles;
    assert t.extra[id := D.ExtraIn(b)] - {id} == t.extra - {id};
  }

  lemma HeardIsRecorded(t: Table, b: Broadcast, host: nat)
    requires D.SenderOf(b) in t.handles && D.SenderOf(b) in t.states && D.SenderOf(b) in t.extra
    ensures Recorded(t, Update(UpdateExtra(t, D.SenderOf(b), D.ExtraIn(b)), D.SenderOf(b), D.StateIn(b)), b, host)
    ensures Update(UpdateExtra(t, D.SenderOf(b), D.ExtraIn(b)), D.SenderOf(b), D.StateIn(b)).states
         == t.states[D.SenderOf(b) := D.StateIn(b)]
  {
    hide D.SenderOf, D.StateIn, D.ExtraIn, D.VersionIn, D.PortIn, Without;
    var id := D.SenderOf(b);
    assert t.states[id] == D.StateIn(b) ==> t.states[id := D.StateIn(b)] == t.states;
    assert t.extra[id := D.ExtraIn(b)] - {id} == t.extra - {id};
  }

  lemma HeardInPlace(peers: map<Id, D.Peer>, id: Id, state: ModuleState)
    requires id in peers
    ensures peers[id := peers[id].(timeout := 0)][id := peers[id].(timeout := 0).(state := state)]
         == peers[id := D.Peer(state, 0)]
    ensures peers[id].state == state ==> peers[id := peers[id].(timeout := 0)] == peers[id := D.Peer(state, 0)]
  {
  }

  lemma UpdateSame(t: Table, id: Id)
    requires id in t.states
    ensures Update(t, id, t.states[id]) == t && StateOf(t, id) == t.states[id]
  {
  }

  /** A row of the table: its handle has the id, and its recorded state is not Dead. */
  ghost predicate Live(t: Table) {
    forall id :: id in t.handles ==> Registered(t, id)
  }

  ghost predicate Registered(t: Table, id: Id) {
    id in t.handles && t.handles[id].uniqueId == id && id in t.states && t.states[id] != Dead
  }

  /** The registered ids with their states and counters. */
  ghost function PeersOf(t: Table): map<Id, D.Peer>
    reads t.handles.Values
    requires Live(t)
  {
    map id | id in t.handles :: assert Registered(t, id); D.Peer(t.states[id], t.handles[id].peerTimeout)
  }
}
