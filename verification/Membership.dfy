/** Discovery, dispatcher and messaging service together: every registered peer has a request socket, and the SUB socket
    follows. */
module Membership {
  import opened Types
  import D = Detector
  import X = Dispatch
  import S = Service
  import L = Connections

  /** The addresses of all peers there can be. */
  datatype Directory = Directory(rep: map<Id, Addr>, pub: map<Id, Addr>)

  datatype State = State(d: D.Detector, x: X.State)

  /** A broadcast or a tick with the notifications it causes, or an event of the dispatcher. */
  datatype Event = Discover(de: D.Event) | Dispatched(xe: X.Event)

  function AddrOf(addrs: map<Id, Addr>, id: Id): Addr {
    if id in addrs then addrs[id] else Addr(0, 0)
  }

  function ChangeOf(dir: Directory, n: D.Notification): X.Event {
    X.PeerChange(n.id, AddrOf(dir.rep, n.id), AddrOf(dir.pub, n.id), n.newState, n.lastState)
  }

  /** The core passes every notification to the dispatcher. */
  function Inform(dir: Directory, x: X.State, notes: seq<D.Notification>): X.State {
    if notes == [] then x
    else X.Step(Inform(dir, x, notes[..|notes| - 1]), ChangeOf(dir, notes[|notes| - 1]))
  }

  function NewNotes(d: D.Detector, d': D.Detector): seq<D.Notification> {
    if |d.log| <= |d'.log| then d'.log[|d.log|..] else []
  }

  function Step(c: D.Config, dir: Directory, s: State, e: Event): State {
    match e
    case Discover(de) => var d' := D.Step(c, s.d, de); State(d', Inform(dir, s.x, NewNotes(s.d, d')))
    case Dispatched(xe) => State(s.d, X.Step(s.x, xe))
  }

  // ---- What the dispatcher does to the service ----

  function Unsubscriptions(hs: seq<X.Handler>): seq<S.Event> {
    seq(|hs|, i requires 0 <= i < |hs| => S.Unsubscribe(hs[i].topic))
  }

  /** The calls an event of the dispatcher makes on the service. */
  function Calls(x: X.State, e: X.Event): seq<S.Event> {
    match e
    case Start(_) =>
      if x.svc.alive then [] else [S.Start, S.Join(x.svc.self.id, x.svc.self.repAddr, x.svc.self.pubAddr)]
    case Stop => (if x.alive && x.svc.alive then Unsubscriptions(x.handlers) + [S.Disable] else []) + [S.Stop]
    case Enable => []
    case Disable => if x.alive && x.svc.alive then Unsubscriptions(x.handlers) + [S.Disable] else []
    case SubMsg(_, _) => []
    case Arrive(f) =>
      if x.svc.alive && f.Request? && X.SYSTEM_REQUEST <= f.msg.topic then
        [S.Arrive(f), S.Answer(S.ExtId(S.IdFrom(f.sender), f.reqId), X.SystemReply(f.msg.data))]
      else [S.Arrive(f)]
    case Notify => [S.Notify]
    case PeerChange(_, _, _, _, _) => if X.PeerEvent(e).Some? && x.svc.alive then [X.PeerEvent(e).value] else []
    case Subscribe(topic) => if x.alive then [S.Subscribe(topic)] else []
    case Unsubscribe(h) => if x.alive then [S.Unsubscribe(h.topic)] else []
    case Send(target, msg) => if x.alive then [S.Send(target, msg)] else []
    case Cancel(id) => [S.Cancel(id)]
    case Deliver(asked, reply) =>
      var i := X.Next(x.q);
      if x.alive && X.Granted(asked, 0) && reply.Some? && i.Some? && i.value.RequestItem? then [S.Answer(i.value.ext, reply.value)]
      else []
  }

  lemma RunOne(svc: S.State, e: S.Event)
    ensures S.Run(svc, [e]) == S.Step(svc, e)
  {
    assert [e][..0] == [];
  }

  lemma RunTwo(svc: S.State, e: S.Event, f: S.Event)
    ensures S.Run(svc, [e, f]) == S.Step(S.Step(svc, e), f)
  {
    assert [e, f][..1] == [e];
    RunOne(svc, e);
  }

  lemma {:induction false} UnsubscribeAllRuns(svc: S.State, hs: seq<X.Handler>)
    ensures X.UnsubscribeAll(svc, hs) == S.Run(svc, Unsubscriptions(hs))
  {
    if hs != [] {
      var n := |hs| - 1;
      UnsubscribeAllRuns(svc, hs[..n]);
      assert Unsubscriptions(hs)[..n] == Unsubscriptions(hs[..n]);
      hide S.Step;
    }
  }

  lemma DisableRuns(x: X.State)
    requires x.alive && x.svc.alive
    ensures X.DisableAll(x).svc == S.Run(x.svc, Unsubscriptions(x.handlers) + [S.Disable])
  {
    UnsubscribeAllRuns(x.svc, x.handlers);
    S.RunAppend(x.svc, Unsubscriptions(x.handlers), S.Disable);
    hide S.Step, S.Run, X.UnsubscribeAll;
  }

  /** Every event of the dispatcher is a run of the service. */
  lemma StepRunsService(x: X.State, e: X.Event)
    ensures X.Step(x, e).svc == S.Run(x.svc, Calls(x, e))
  {
    hide S.Step, S.Run, X.DisableAll, S.IdFrom, X.SystemReply, X.CommandIn, X.Push, X.Pop, X.Next, X.Deliveries, X.Insert;
    hide X.Erase, Unsubscriptions;
    assert S.Run(x.svc, []) == x.svc by { NoRun(x.svc); }
    var calls := Calls(x, e);
    if |calls| == 1 { RunOne(x.svc, calls[0]); }
    if |calls| == 2 { RunTwo(x.svc, calls[0], calls[1]); }
    match e {
      case Stop =>
        if x.alive && x.svc.alive {
          DisableRuns(x);
          S.RunAppend(x.svc, Unsubscriptions(x.handlers) + [S.Disable], S.Stop);
        } else {
          DeadDispatcherStays(x);
          assert [] + [S.Stop] == [S.Stop];
        }
      case Disable => if x.alive && x.svc.alive { DisableRuns(x); } else { DeadDispatcherStays(x); }
      case Arrive(f) => ArriveDeadService(x.svc, f);
      case _ =>
    }
  }

  lemma NoRun(svc: S.State)
    ensures S.Run(svc, []) == svc
  {
  }

  lemma DeadDispatcherStays(x: X.State)
    requires !x.alive || !x.svc.alive
    ensures X.DisableAll(x).svc == x.svc
  {
  }

  lemma ArriveDeadService(svc: S.State, f: S.Frame)
    ensures !svc.alive ==> S.Step(svc, S.Arrive(f)) == svc
    ensures S.Step(svc, S.Arrive(f)).alive == svc.alive
  {
    hide S.IdFrom, S.IdBytes;
  }

  // ---- The invariant ----

  /** The service is alive, every queued change has its token, and SUB will be connected to the peers with a socket. */
  ghost predicate ServiceFits(dir: Directory, svc: S.State) {
    svc.alive && S.TokensMatch(svc) && S.MembersAgree(dir.pub, svc)
  }

  ghost predicate PeersHaveSockets(peers: set<Id>, svc: S.State) {
    peers <= svc.sockets.Keys
  }

  ghost predicate Connected(dir: Directory, s: State) {
    && D.LogAgrees(s.d) && ServiceFits(dir, s.x.svc)
    && PeersHaveSockets(s.d.peers.Keys, s.x.svc)
  }

  /** Peers announce and greet with their own publish addresses. Stopping and starting end the epoch. */
  ghost predicate Truthful(dir: Directory, e: Event) {
    match e
    case Discover(de) => de.Receive? ==> D.SenderOf(de.b) in dir.pub
    case Dispatched(xe) =>
      && !xe.Start? && !xe.Stop? && !xe.PeerChange?
      && (xe.Arrive? && xe.frame.Hello? ==>
            S.IdFrom(xe.frame.sender) in dir.pub && dir.pub[S.IdFrom(xe.frame.sender)] == xe.frame.pubAddr)
  }

  /** A call on the service that neither starts nor stops it and names true addresses. */
  ghost predicate Fitting(dir: Directory, e: S.Event) {
    e != S.Start && e != S.Stop && S.Addressed(dir.pub, e)
  }

  lemma SocketStays(svc: S.State, e: S.Event, id: Id)
    requires id in svc.sockets && e != S.Stop && !(e.Leave? && e.id == id)
    ensures id in S.Step(svc, e).sockets
  {
    hide S.IdFrom, S.IdBytes;
  }

  lemma StepFits(dir: Directory, svc: S.State, e: S.Event)
    requires S.OneAddressEach(dir.pub) && ServiceFits(dir, svc) && Fitting(dir, e)
    ensures ServiceFits(dir, S.Step(svc, e))
    ensures forall id :: id in svc.sockets && !(e.Leave? && e.id == id) ==> id in S.Step(svc, e).sockets
  {
    S.StepKeepsTokens(svc, e);
    S.AliveStepKeepsMembers(dir.pub, svc, e);
    assert S.Step(svc, e).alive by { hide S.IdFrom, S.IdBytes, S.SendRequest, S.SendReply; S.FramedBySending(svc, e); }
    hide S.TokensMatch, S.MembersAgree;
    forall id | id in svc.sockets && !(e.Leave? && e.id == id)
      ensures id in S.Step(svc, e).sockets
    {
      SocketStays(svc, e, id);
      hide S.Step;
    }
    hide S.Step;
  }

  lemma {:induction false} RunFits(dir: Directory, svc: S.State, es: seq<S.Event>)
    requires S.OneAddressEach(dir.pub) && ServiceFits(dir, svc)
    requires forall i :: 0 <= i < |es| ==> Fitting(dir, es[i]) && !es[i].Leave?
    ensures ServiceFits(dir, S.Run(svc, es)) && svc.sockets.Keys <= S.Run(svc, es).sockets.Keys
  {
    hide ServiceFits, S.Step, Fitting, S.OneAddressEach;
    if es != [] {
      var n := |es| - 1;
      RunFits(dir, svc, es[..n]);
      StepFits(dir, S.Run(svc, es[..n]), es[n]);
    }
  }

  lemma CallsFit(dir: Directory, x: X.State, e: X.Event)
    requires Truthful(dir, Dispatched(e))
    ensures forall i :: 0 <= i < |Calls(x, e)| ==> Fitting(dir, Calls(x, e)[i]) && !Calls(x, e)[i].Leave?
  {
    hide S.IdFrom, X.Next, X.SystemReply;
  }

  lemma DispatchedStaysConnected(c: D.Config, dir: Directory, s: State, e: X.Event)
    requires S.OneAddressEach(dir.pub) && Connected(dir, s) && Truthful(dir, Dispatched(e))
    ensures Connected(dir, Step(c, dir, s, Dispatched(e)))
  {
    StepRunsService(s.x, e);
    CallsFit(dir, s.x, e);
    hide X.Step, S.Run, ServiceFits, D.LogAgrees, Calls, Truthful, Fitting;
    RunFits(dir, s.x.svc, Calls(s.x, e));
  }

  // ---- Notifications ----

  lemma {:induction false} DropAllNotes(d: D.Detector, order: seq<Id>)
    ensures d.log <= D.DropAll(d, order).log && D.DropAll(d, order).peers.Keys <= d.peers.Keys
    ensures forall k :: |d.log| <= k < |D.DropAll(d, order).log| ==> D.DropAll(d, order).log[k].id in d.peers
  {
    if order != [] {
      DropAllNotes(d, order[..|order| - 1]);
    }
  }

  /** The log only grows, by notifications about registered peers and the sender of the broadcast. */
  lemma LogGrows(c: D.Config, d: D.Detector, e: D.Event)
    ensures d.log <= D.Step(c, d, e).log
    ensures forall k :: |d.log| <= k < |D.Step(c, d, e).log| ==>
              D.Step(c, d, e).log[k].id in d.peers || (e.Receive? && D.SenderOf(e.b) == D.Step(c, d, e).log[k].id)
  {
    hide D.Ignored, D.SenderOf, D.StateIn;
    if e.Tick? { DropAllNotes(d.(peers := D.Bumped(c, d.peers)), e.order); }
    hide D.DropAll;
  }

  /** One notification, passed on, keeps the known peers connected. */
  lemma NoteStaysConnected(dir: Directory, x: X.State, log: seq<D.Notification>, n: D.Notification)
    requires S.OneAddressEach(dir.pub) && ServiceFits(dir, x.svc)
    requires PeersHaveSockets(D.Replay(log).Keys, x.svc) && n.id in dir.pub
    requires n.lastState == D.Known(D.Replay(log), n.id) && n.newState != n.lastState
    ensures ServiceFits(dir, X.Step(x, ChangeOf(dir, n)).svc)
    ensures PeersHaveSockets(D.Replay(log + [n]).Keys, X.Step(x, ChangeOf(dir, n)).svc)
  {
    hide ServiceFits, S.OneAddressEach, D.Replay, S.Step, X.Step;
    var e := ChangeOf(dir, n);
    FitsIsAlive(dir, x.svc);
    ChangeOnService(x, e);
    ReplayKeys(log, n);
    if X.PeerEvent(e).Some? {
      StepFits(dir, x.svc, X.PeerEvent(e).value);
      if n.lastState == Dead {
        JoinConnects(x.svc, n.id, AddrOf(dir.rep, n.id), AddrOf(dir.pub, n.id));
      }
    }
  }

  lemma ChangeOnService(x: X.State, e: X.Event)
    requires e.PeerChange? && x.svc.alive
    ensures X.Step(x, e).svc == if X.PeerEvent(e).Some? then S.Step(x.svc, X.PeerEvent(e).value) else x.svc
  {
    hide S.Step, X.Push;
  }

  lemma ReplayKeys(log: seq<D.Notification>, n: D.Notification)
    ensures D.Replay(log + [n]).Keys
         == if n.newState == Dead then D.Replay(log).Keys - {n.id} else D.Replay(log).Keys + {n.id}
  {
    assert (log + [n])[..|log|] == log;
  }

  lemma FitsIsAlive(dir: Directory, svc: S.State)
    requires ServiceFits(dir, svc)
    ensures svc.alive
  {
  }

  lemma JoinConnects(svc: S.State, id: Id, repAddr: Addr, pubAddr: Addr)
    requires svc.alive
    ensures id in S.Step(svc, S.Join(id, repAddr, pubAddr)).sockets
  {
  }

  /** All new notifications of a chained log. */
  lemma {:induction false} InformStaysConnected(dir: Directory, x: X.State, log: seq<D.Notification>,
                                                notes: seq<D.Notification>)
    requires S.OneAddressEach(dir.pub) && ServiceFits(dir, x.svc) && PeersHaveSockets(D.Replay(log).Keys, x.svc)
    requires D.Chained(log + notes) && forall k :: 0 <= k < |notes| ==> notes[k].id in dir.pub
    ensures ServiceFits(dir, Inform(dir, x, notes).svc)
    ensures PeersHaveSockets(D.Replay(log + notes).Keys, Inform(dir, x, notes).svc)
  {
    hide ServiceFits, PeersHaveSockets, S.OneAddressEach, X.Step, ChangeOf, D.Chained, D.Replay, D.Known;
    if notes == [] {
      assert log + [] == log;
    } else {
      var m := |notes| - 1;
      LastLink(log, notes);
      InformStaysConnected(dir, x, log, notes[..m]);
      NoteStaysConnected(dir, Inform(dir, x, notes[..m]), log + notes[..m], notes[m]);
    }
  }

  lemma ChainedPrefix(all: seq<D.Notification>, n: nat)
    requires D.Chained(all) && n < |all|
    ensures D.Chained(all[..n])
    ensures all[n].lastState == D.Known(D.Replay(all[..n]), all[n].id) && all[n].newState != all[n].lastState
  {
    hide D.Replay, D.Known;
    assert forall k :: 0 <= k < n ==> all[..n][k] == all[k] && all[..n][..k] == all[..k];
  }

  lemma LastLink(log: seq<D.Notification>, notes: seq<D.Notification>)
    requires D.Chained(log + notes) && notes != []
    ensures var early, n := log + notes[..|notes| - 1], notes[|notes| - 1];
            && D.Chained(early) && log + notes == early + [n]
            && n.lastState == D.Known(D.Replay(early), n.id) && n.newState != n.lastState
  {
    hide D.Chained, D.Replay, D.Known;
    var m := |notes| - 1;
    ChainedPrefix(log + notes, |log| + m);
    assert (log + notes)[..|log| + m] == log + notes[..m];
    assert log + notes == log + notes[..m] + [notes[m]];
  }

  /** The new notifications carry the log on, each about a registered peer or the sender of the broadcast. */
  lemma NotesCarryOn(c: D.Config, d: D.Detector, e: D.Event)
    requires D.LogAgrees(d)
    ensures var notes := NewNotes(d, D.Step(c, d, e));
            && D.Chained(d.log + notes)
            && D.Replay(d.log).Keys == d.peers.Keys && D.Replay(d.log + notes).Keys == D.Step(c, d, e).peers.Keys
            && forall k :: 0 <= k < |notes| ==> notes[k].id in d.peers || (e.Receive? && D.SenderOf(e.b) == notes[k].id)
  {
    hide D.Step, D.LogAgrees, D.Chained, D.Replay, D.SenderOf;
    D.StepAgrees(c, d, e);
    LogGrows(c, d, e);
    KnownPeers(d);
    KnownPeers(D.Step(c, d, e));
    TailOf(d.log, D.Step(c, d, e).log);
  }

  lemma TailOf(log: seq<D.Notification>, later: seq<D.Notification>)
    requires log <= later
    ensures log + later[|log|..] == later
    ensures forall k :: 0 <= k < |later| - |log| ==> later[|log|..][k] == later[|log| + k]
  {
  }

  lemma DiscoverStaysConnected(c: D.Config, dir: Directory, s: State, e: D.Event)
    requires S.OneAddressEach(dir.pub) && Connected(dir, s) && Truthful(dir, Discover(e))
    ensures Connected(dir, Step(c, dir, s, Discover(e)))
  {
    hide D.Step, D.Chained, D.Replay, D.SenderOf, ServiceFits, Inform, S.OneAddressEach;
    D.StepAgrees(c, s.d, e);
    NotesCarryOn(c, s.d, e);
    SocketsKnown(dir, s.x.svc);
    hide D.LogAgrees;
    InformStaysConnected(dir, s.x, s.d.log, NewNotes(s.d, D.Step(c, s.d, e)));
  }

  lemma SocketsKnown(dir: Directory, svc: S.State)
    requires ServiceFits(dir, svc)
    ensures svc.sockets.Keys <= dir.pub.Keys
  {
  }

  lemma KnownPeers(d: D.Detector)
    requires D.LogAgrees(d)
    ensures D.Chained(d.log) && D.Replay(d.log).Keys == d.peers.Keys
  {
  }

  lemma StepStaysConnected(c: D.Config, dir: Directory, s: State, e: Event)
    requires S.OneAddressEach(dir.pub) && Connected(dir, s) && Truthful(dir, e)
    ensures Connected(dir, Step(c, dir, s, e))
  {
    hide Connected, Step, Truthful, S.OneAddressEach;
    match e {
      case Discover(de) => DiscoverStaysConnected(c, dir, s, de);
      case Dispatched(xe) => DispatchedStaysConnected(c, dir, s, xe);
    }
  }

  function Run(c: D.Config, dir: Directory, s: State, es: seq<Event>): State {
    if es == [] then s else Step(c, dir, Run(c, dir, s, es[..|es| - 1]), es[|es| - 1])
  }

  /** In every run of one epoch, across greetings, joins, state changes, deaths and timeouts, in any order: every
      registered peer has a request socket, every queued change its token, and SUB, once it has caught up, is connected to
      exactly the peers with a request socket. */
  lemma {:induction false} PeersStayConnected(c: D.Config, dir: Directory, s: State, es: seq<Event>)
    requires S.OneAddressEach(dir.pub) && Connected(dir, s)
    requires forall i :: 0 <= i < |es| ==> Truthful(dir, es[i])
    ensures Connected(dir, Run(c, dir, s, es))
  {
    hide Connected, Step, Truthful, S.OneAddressEach;
    if es != [] {
      PeersStayConnected(c, dir, s, es[..|es| - 1]);
      StepStaysConnected(c, dir, Run(c, dir, s, es[..|es| - 1]), es[|es| - 1]);
    }
  }

  // ---- Sockets follow registration ----

  /** The peer has a socket exactly when it is registered; the own instance always has one. */
  ghost predicate Matches(own: Id, id: Id, peers: set<Id>, svc: S.State) {
    id in svc.sockets <==> id in peers || id == own
  }

  /** The peer does not greet; the own instance is not taken for a peer. */
  ghost predicate QuietAbout(own: Id, id: Id, e: Event) {
    match e
    case Discover(de) => de.Receive? && id == own ==> D.SenderOf(de.b) != id
    case Dispatched(xe) => xe.Arrive? && xe.frame.Hello? ==> S.IdFrom(xe.frame.sender) != id
  }

  /** Calls that neither connect nor disconnect a peer leave its socket alone. */
  lemma {:induction false} SocketUntouched(svc: S.State, es: seq<S.Event>, id: Id)
    requires forall i :: 0 <= i < |es| ==> !L.Opens(es[i], id) && !L.Closes(es[i], id)
    ensures id in S.Run(svc, es).sockets <==> id in svc.sockets
  {
    hide S.Step, L.Opens, L.Closes;
    if es != [] {
      var n := |es| - 1;
      SocketUntouched(svc, es[..n], id);
      L.SocketStep(S.Run(svc, es[..n]), es[n], id);
    }
  }

  lemma CallsLeaveSocket(dir: Directory, own: Id, id: Id, x: X.State, e: X.Event)
    requires Truthful(dir, Dispatched(e)) && QuietAbout(own, id, Dispatched(e))
    ensures forall i :: 0 <= i < |Calls(x, e)| ==> !L.Opens(Calls(x, e)[i], id) && !L.Closes(Calls(x, e)[i], id)
  {
    hide S.IdFrom, X.Next, X.SystemReply;
  }

  lemma DispatchedKeepsMatch(c: D.Config, dir: Directory, s: State, e: X.Event, own: Id, id: Id)
    requires Truthful(dir, Dispatched(e)) && QuietAbout(own, id, Dispatched(e)) && Matches(own, id, s.d.peers.Keys, s.x.svc)
    ensures Matches(own, id, Step(c, dir, s, Dispatched(e)).d.peers.Keys, Step(c, dir, s, Dispatched(e)).x.svc)
  {
    StepRunsService(s.x, e);
    CallsLeaveSocket(dir, own, id, s.x, e);
    hide X.Step, S.Run, Calls, Truthful, QuietAbout, L.Opens, L.Closes;
    SocketUntouched(s.x.svc, Calls(s.x, e), id);
  }

  /** One notification, passed on, moves the socket with the registration. */
  lemma NoteKeepsMatch(dir: Directory, x: X.State, log: seq<D.Notification>, n: D.Notification, own: Id, id: Id)
    requires x.svc.alive && Matches(own, id, D.Replay(log).Keys, x.svc) && (n.id == id ==> id != own)
    requires n.lastState == D.Known(D.Replay(log), n.id) && n.newState != n.lastState
    ensures X.Step(x, ChangeOf(dir, n)).svc.alive
    ensures Matches(own, id, D.Replay(log + [n]).Keys, X.Step(x, ChangeOf(dir, n)).svc)
  {
    hide D.Replay, S.Step, X.Step;
    var e := ChangeOf(dir, n);
    ChangeOnService(x, e);
    ReplayKeys(log, n);
    if X.PeerEvent(e).Some? {
      L.SocketStep(x.svc, X.PeerEvent(e).value, id);
      L.AliveStep(x.svc, X.PeerEvent(e).value);
    }
  }

  lemma {:induction false} InformKeepsMatch(dir: Directory, x: X.State, log: seq<D.Notification>,
                                            notes: seq<D.Notification>, own: Id, id: Id)
    requires x.svc.alive && Matches(own, id, D.Replay(log).Keys, x.svc) && D.Chained(log + notes)
    requires id == own ==> forall k :: 0 <= k < |notes| ==> notes[k].id != own
    ensures Inform(dir, x, notes).svc.alive
    ensures Matches(own, id, D.Replay(log + notes).Keys, Inform(dir, x, notes).svc)
  {
    hide Matches, X.Step, ChangeOf, D.Chained, D.Replay, D.Known;
    if notes == [] {
      assert log + [] == log;
    } else {
      var m := |notes| - 1;
      LastLink(log, notes);
      InformKeepsMatch(dir, x, log, notes[..m], own, id);
      NoteKeepsMatch(dir, Inform(dir, x, notes[..m]), log + notes[..m], notes[m], own, id);
    }
  }

  /** Only the sender of a broadcast is registered anew. */
  lemma RegistersSender(c: D.Config, d: D.Detector, e: D.Event)
    ensures D.Step(c, d, e).peers.Keys <= d.peers.Keys + if e.Receive? then {D.SenderOf(e.b)} else {}
  {
    hide D.Ignored, D.SenderOf, D.StateIn;
    if e.Tick? { DropAllNotes(d.(peers := D.Bumped(c, d.peers)), e.order); }
    hide D.DropAll;
  }

  lemma DiscoverKeepsMatch(c: D.Config, dir: Directory, s: State, e: D.Event, own: Id, id: Id)
    requires s.x.svc.alive && D.LogAgrees(s.d) && own !in s.d.peers && Matches(own, id, s.d.peers.Keys, s.x.svc)
    requires QuietAbout(own, id, Discover(e)) && QuietAbout(own, own, Discover(e))
    ensures Matches(own, id, Step(c, dir, s, Discover(e)).d.peers.Keys, Step(c, dir, s, Discover(e)).x.svc)
  {
    hide D.Step, D.LogAgrees, D.Chained, D.Replay, D.SenderOf, Matches, Inform;
    NotesCarryOn(c, s.d, e);
    InformKeepsMatch(dir, s.x, s.d.log, NewNotes(s.d, D.Step(c, s.d, e)), own, id);
  }

  /** In every run of one epoch in which the own instance is not taken for a peer: whoever does not greet has a request
      socket exactly when it is registered, and the own instance always has one. */
  lemma {:induction false} SocketExactlyWhenRegistered(c: D.Config, dir: Directory, s: State, es: seq<Event>, own: Id, id: Id)
    requires S.OneAddressEach(dir.pub) && Connected(dir, s) && own !in s.d.peers && Matches(own, id, s.d.peers.Keys, s.x.svc)
    requires forall i :: 0 <= i < |es| ==>
               Truthful(dir, es[i]) && QuietAbout(own, own, es[i]) && QuietAbout(own, id, es[i])
    ensures own !in Run(c, dir, s, es).d.peers
    ensures Matches(own, id, Run(c, dir, s, es).d.peers.Keys, Run(c, dir, s, es).x.svc)
  {
    hide S.OneAddressEach, Step, Matches;
    if es != [] {
      var n := |es| - 1;
      var r, e := Run(c, dir, s, es[..n]), es[n];
      SocketExactlyWhenRegistered(c, dir, s, es[..n], own, id);
      PeersStayConnected(c, dir, s, es[..n]);
      StepKeepsMatch(c, dir, r, e, own, id);
    }
  }

  lemma StepKeepsMatch(c: D.Config, dir: Directory, s: State, e: Event, own: Id, id: Id)
    requires Connected(dir, s) && own !in s.d.peers && Matches(own, id, s.d.peers.Keys, s.x.svc)
    requires Truthful(dir, e) && QuietAbout(own, own, e) && QuietAbout(own, id, e)
    ensures own !in Step(c, dir, s, e).d.peers
    ensures Matches(own, id, Step(c, dir, s, e).d.peers.Keys, Step(c, dir, s, e).x.svc)
  {
    hide Matches, D.LogAgrees, D.Step, X.Step, Truthful, Inform;
    FitsIsAlive(dir, s.x.svc);
    match e {
      case Discover(de) =>
        RegistersSender(c, s.d, de);
        DiscoverKeepsMatch(c, dir, s, de, own, id);
      case Dispatched(xe) => DispatchedKeepsMatch(c, dir, s, xe, own, id);
    }
  }

  /** With no greeting at all, the peers with a request socket are exactly the registered ones and the own instance. */
  lemma SocketsAreRegistered(c: D.Config, dir: Directory, s: State, es: seq<Event>, own: Id)
    requires S.OneAddressEach(dir.pub) && Connected(dir, s) && own !in s.d.peers
    requires s.x.svc.sockets.Keys == s.d.peers.Keys + {own}
    requires forall i :: 0 <= i < |es| ==> Truthful(dir, es[i]) && forall id :: QuietAbout(own, id, es[i])
    ensures Run(c, dir, s, es).x.svc.sockets.Keys == Run(c, dir, s, es).d.peers.Keys + {own}
  {
    var r := Run(c, dir, s, es);
    hide S.OneAddressEach, Run, Connected, Truthful, QuietAbout;
    assert forall i :: 0 <= i < |es| ==> QuietAbout(own, own, es[i]);
    forall id
      ensures id in r.x.svc.sockets.Keys <==> id in r.d.peers.Keys + {own}
    {
      SocketExactlyWhenRegistered(c, dir, s, es, own, id);
    }
  }

  /** A node that has just started, with nothing left over from an earlier epoch, is such a state. */
  lemma StartIsConnected(dir: Directory, self: S.Self, size: int)
    requires self.id in dir.pub && dir.pub[self.id] == self.pubAddr
    ensures var s := State(D.INITIAL, X.Step(X.Initial(self, size), X.Start(size)));
            Connected(dir, s) && s.x.svc.sockets == map[self.id := self.repAddr] && s.d.peers == map[]
  {
    var svc := S.Step(S.Initial(self), S.Start);
    assert S.CountTokens([S.MembershipChange], S.MembershipChange) == 1;
    var s := S.Step(svc, S.Join(self.id, self.repAddr, self.pubAddr));
    S.DrainedMembersAppend({}, [], S.Change(self.pubAddr, true));
    assert s.members == [S.Change(self.pubAddr, true)] && s.tokens == [S.MembershipChange];
    assert s.sockets == map[self.id := self.repAddr];
    assert (set id | id in s.sockets :: dir.pub[id]) == {self.pubAddr};
    assert S.DrainedMembers({}, s.members) == {self.pubAddr};
  }
}
