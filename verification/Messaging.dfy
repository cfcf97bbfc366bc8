/** The messaging service: its fields change in place, and every operation is one step of the state machine in Service. */
module Messaging {
  import opened Types
  import opened Service

  class ZmqService {
    const self: Self
    var alive: bool
    var nextRequestId: U64
    /** The request sockets, as the address each is connected to. */
    var mapSocketsReq: map<Id, Addr>
    /** The promises not yet settled, as positions among all futures handed out. */
    var outstandingRequests: map<U64, nat>
    var outstandingReplies: map<ExtId, Id>
    var queueMembershipChanges: seq<Change<Addr>>
    var queueSubscriptionChanges: seq<Change<Topic>>
    /** The tokens in the notify channel, and the state of the SUB socket. */
    var notify: seq<Token>
    var subConnected: set<Addr>
    var subPrefixes: multiset<Topic>
    /** What callers hold and what left the node. */
    var futures: seq<Future>
    var wire: seq<Packet>
    var received: seq<(ExtId, Msg)>

    function Abs(): (s: State)
      reads this
      ensures s.alive == alive && s.self == self
    {
      State(self, alive, mapSocketsReq, futures, outstandingRequests, nextRequestId, outstandingReplies, wire, received,
            queueMembershipChanges, queueSubscriptionChanges, notify, subConnected, subPrefixes)
    }

    constructor (self: Self)
      ensures Abs() == Initial(self)
    {
      this.self := self;
      alive, nextRequestId, mapSocketsReq, outstandingRequests, outstandingReplies := false, 0, map[], map[], map[];
      queueMembershipChanges, queueSubscriptionChanges, notify := [], [], [];
      subConnected, subPrefixes, futures, wire, received := {}, multiset{}, [], [], [];
    }

    /** Makes new sockets; when they cannot be bound they are closed again and the service is not started. */
    method Start(binds: bool) returns (ok: bool)
      modifies this`alive, this`notify, this`subConnected, this`subPrefixes
      ensures Abs() == if binds then Step(old(Abs()), Service.Start) else FailedStart(old(Abs()))
      ensures ok == (binds && !old(alive)) && alive == (binds || old(alive))
      ensures !old(alive) ==> notify == [] && subConnected == {} && subPrefixes == multiset{}
    {
      hide Step;
      StartSteps(Abs());
      if alive { return false; }
      notify, subConnected, subPrefixes := [], {}, multiset{};
      if !binds { return false; }
      alive := true;
      ok := true;
    }

    /** The poller takes the shutdown token and is joined; the sockets are closed. The change queues and the waiting
        replies are only asked whether they are empty. */
    method Stop()
      modifies this
      ensures Abs() == Step(old(Abs()), Service.Stop) && !alive
    {
      hide Step, AbandonAll;
      StopSteps(Abs());
      if !alive { return; }
      alive := false;
      NotifyPoller(Shutdown);
      mapSocketsReq := map[];
      ClearRequests();
    }

    method NotifyPoller(token: Token)
      modifies this`notify
      ensures notify == old(notify) + [token]
    {
      notify := notify + [token];
    }

    /** Destroying a promise that was not settled breaks its future. */
    method ClearRequests()
      modifies this`outstandingRequests, this`futures
      ensures outstandingRequests == map[] && futures == AbandonAll(old(futures))
    {
      var i := 0;
      while i < |futures|
        invariant 0 <= i <= |futures| == |old(futures)|
        invariant forall j :: 0 <= j < i ==> futures[j] == AbandonAll(old(futures))[j]
        invariant forall j :: i <= j < |futures| ==> futures[j] == old(futures)[j]
      {
        if futures[i] == Pending { futures := futures[i := Abandoned]; }
        i := i + 1;
      }
      outstandingRequests := map[];
    }

    method PeerJoin(id: Id, repAddr: Addr, pubAddr: Addr) returns (ok: bool)
      modifies this
      ensures ok == old(alive) && Abs() == Step(old(Abs()), Join(id, repAddr, pubAddr)) && alive == old(alive)
    {
      ok := alive;
      if !alive { return; }
      InternalConnect(id, repAddr, pubAddr);
    }

    method InternalConnect(id: Id, repAddr: Addr, pubAddr: Addr)
      modifies this
      ensures Abs() == Connect(old(Abs()), id, repAddr, pubAddr) && alive == old(alive)
    {
      hide IdBytes;
      if id !in mapSocketsReq {
        wire := wire + [Packet(repAddr, Frame.Hello(IdBytes(self.id), self.repAddr, self.pubAddr))];
        mapSocketsReq := mapSocketsReq[id := repAddr];
        queueMembershipChanges := queueMembershipChanges + [Change(pubAddr, true)];
        NotifyPoller(MembershipChange);
      }
    }

    method PeerLeave(id: Id, pubAddr: Addr) returns (ok: bool)
      modifies this
      ensures ok == old(alive) && Abs() == Step(old(Abs()), Leave(id, pubAddr))
    {
      ok := alive;
      if !alive { return; }
      if id in mapSocketsReq {
        mapSocketsReq := mapSocketsReq - {id};
        queueMembershipChanges := queueMembershipChanges + [Change(pubAddr, false)];
        NotifyPoller(MembershipChange);
      }
    }

    method Subscribe(topic: Topic) returns (ok: bool)
      modifies this
      ensures ok == old(alive) && Abs() == Step(old(Abs()), Service.Subscribe(topic))
    {
      ok := alive;
      if !alive { return; }
      queueSubscriptionChanges := queueSubscriptionChanges + [Change(topic, true)];
      NotifyPoller(SubscriptionChange);
    }

    method Unsubscribe(topic: Topic) returns (ok: bool)
      modifies this
      ensures ok == old(alive) && Abs() == Step(old(Abs()), Service.Unsubscribe(topic)) && alive == old(alive)
    {
      ok := alive;
      if !alive { return; }
      queueSubscriptionChanges := queueSubscriptionChanges + [Change(topic, false)];
      NotifyPoller(SubscriptionChange);
    }

    /** Issues a request: its number and the position of its future, or nothing when the service is not alive. */
    method SendRequest(target: Id, msg: Msg) returns (issued: Option<(U64, nat)>)
      requires Conserved(Abs())
      modifies this
      ensures Abs() == Step(old(Abs()), Send(target, msg)) && Conserved(Abs())
      ensures issued == if old(alive) then Some((old(nextRequestId), |old(futures)|)) else None
    {
      hide Step, Conserved, IdBytes, Issued, Service.SendRequest;
      SendingSteps(Abs(), target, msg);
      StepConserves(Abs(), Send(target, msg));
      if !alive { return None; }
      var id, future := IssueRequest();
      if target in mapSocketsReq {
        wire := wire + [Packet(mapSocketsReq[target], Request(id, IdBytes(self.id), msg))];
      } else {
        futures := futures[outstandingRequests[id] := TargetUnknown];
        outstandingRequests := outstandingRequests - {id};
      }
      issued := Some((id, future));
    }

    /** Takes the next number and registers a promise under it, in place of one that is still there. */
    method IssueRequest() returns (id: U64, future: nat)
      requires Conserved(Abs())
      modifies this`nextRequestId, this`futures, this`outstandingRequests
      ensures id == old(nextRequestId) && future == |old(futures)| && Abs() == Issued(old(Abs()))
    {
      hide NumberOf;
      id := nextRequestId;
      DropPromise(id);
      hide Conserved, Paired, Abandon;
      nextRequestId := (nextRequestId + 1) % TWO64;
      future := |futures|;
      futures := futures + [Pending];
      outstandingRequests := outstandingRequests[id := future];
    }

    method DropPromise(id: U64)
      requires id in outstandingRequests ==> outstandingRequests[id] < |futures|
      modifies this`futures, this`outstandingRequests
      ensures Abs() == Abandon(old(Abs()), id) && |futures| == |old(futures)|
    {
      if id in outstandingRequests {
        futures := futures[outstandingRequests[id] := Abandoned];
        outstandingRequests := outstandingRequests - {id};
      }
    }

    method SendReply(ext: ExtId, msg: Msg) returns (ok: bool)
      modifies this
      ensures ok == old(alive) && Abs() == Step(old(Abs()), Answer(ext, msg))
    {
      ok := alive;
      if !alive { return; }
      var found := ext in outstandingReplies;
      if !found { return; }
      var addr := outstandingReplies[ext];
      outstandingReplies := outstandingReplies - {ext};
      if addr in mapSocketsReq {
        wire := wire + [Packet(mapSocketsReq[addr], Reply(ext.reqId, msg))];
      }
    }

    method CancelRequest(id: U64)
      requires Conserved(Abs())
      modifies this
      ensures Abs() == Step(old(Abs()), Cancel(id)) && Conserved(Abs())
    {
      StepConserves(Abs(), Cancel(id));
      if !alive { return; }
      DropPromise(id);
    }

    method OnDisable() returns (ok: bool)
      modifies this
      ensures ok == old(alive) && Abs() == Step(old(Abs()), Disable) && alive == old(alive)
    {
      ok := alive;
      if !alive { return; }
      ClearRequests();
      outstandingReplies := map[];
    }

    // ---- The poller thread ----

    method HandleRequestReceived(reqId: U64, sender: seq<Byte>, msg: Msg)
      modifies this
      ensures Abs() == Receive(old(Abs()), Request(reqId, sender, msg)) && alive == old(alive)
    {
      var identity := IdFrom(sender);
      var ext := ExtId(identity, reqId);
      outstandingReplies := outstandingReplies[ext := identity];
      received := received + [(ext, msg)];
    }

    method HandleReplyReceived(reqId: U64, msg: Msg)
      requires Conserved(Abs())
      modifies this
      ensures Abs() == Receive(old(Abs()), Reply(reqId, msg)) && alive == old(alive)
    {
      if reqId in outstandingRequests {
        futures := futures[outstandingRequests[reqId] := Value(msg)];
        outstandingRequests := outstandingRequests - {reqId};
      }
    }

    method HandleHelloReceived(sender: seq<Byte>, repAddr: Addr, pubAddr: Addr)
      modifies this
      ensures Abs() == Receive(old(Abs()), Frame.Hello(sender, repAddr, pubAddr)) && alive == old(alive)
    {
      InternalConnect(IdFrom(sender), repAddr, pubAddr);
    }

    /** Handles a frame as its kind demands. */
    method HandleFrame(frame: Frame)
      requires alive && Conserved(Abs())
      modifies this
      ensures alive && Abs() == Step(old(Abs()), Arrive(frame)) && Conserved(Abs())
    {
      hide Receive, Conserved;
      StepConserves(Abs(), Arrive(frame));
      match frame {
        case Request(reqId, sender, msg) => HandleRequestReceived(reqId, sender, msg);
        case Reply(reqId, msg) => HandleReplyReceived(reqId, msg);
        case Hello(sender, repAddr, pubAddr) => HandleHelloReceived(sender, repAddr, pubAddr);
      }
    }

    /** Handles all frames that wait on the reply socket, in order. */
    method HandleRepIn(frames: seq<Frame>)
      requires alive && Conserved(Abs())
      modifies this
      ensures Conserved(Abs()) && Abs() == Run(old(Abs()), Arrivals(frames))
    {
      hide Step, Conserved, Abs;
      var i := 0;
      while i < |frames|
        invariant 0 <= i <= |frames| && alive && Conserved(Abs())
        invariant Abs() == Run(old(Abs()), Arrivals(frames[..i]))
      {
        ArrivalsAppend(frames, i);
        RunAppend(old(Abs()), Arrivals(frames[..i]), Arrive(frames[i]));
        HandleFrame(frames[i]);
        i := i + 1;
      }
      assert frames[..i] == frames;
    }

    method ApplyMembershipChange()
      modifies this
      ensures Abs() == if old(queueMembershipChanges) == [] then old(Abs())
                       else old(Abs()).(members := old(queueMembershipChanges)[1..],
                                        connected := ApplyMember(old(subConnected), old(queueMembershipChanges)[0]))
    {
      if queueMembershipChanges != [] {
        var change := queueMembershipChanges[0];
        queueMembershipChanges := queueMembershipChanges[1..];
        if change.add {
          subConnected := subConnected + {change.what};
        } else {
          subConnected := subConnected - {change.what};
        }
      }
    }

    method ApplySubscriptionChange()
      modifies this
      ensures Abs() == if old(queueSubscriptionChanges) == [] then old(Abs())
                       else old(Abs()).(subscriptions := old(queueSubscriptionChanges)[1..],
                                        prefixes := ApplySubscription(old(subPrefixes), old(queueSubscriptionChanges)[0]))
    {
      if queueSubscriptionChanges != [] {
        var change := queueSubscriptionChanges[0];
        queueSubscriptionChanges := queueSubscriptionChanges[1..];
        if change.add {
          subPrefixes := subPrefixes + multiset{change.what};
        } else {
          subPrefixes := subPrefixes - multiset{change.what};
        }
      }
    }

    method HandleNotify()
      requires alive && notify != []
      modifies this
      ensures Abs() == Step(old(Abs()), Notify)
    {
      var token := notify[0];
      notify := notify[1..];
      match token {
        case SubscriptionChange => ApplySubscriptionChange();
        case MembershipChange => ApplyMembershipChange();
        case Shutdown =>
      }
    }
  }

  /** New sockets replace those of the last epoch, which were closed at its end. */
  function FailedStart(s: State): State {
    if s.alive then s else s.(tokens := [], connected := {}, prefixes := multiset{})
  }

  /** A call on the service, or a start whose sockets cannot be bound. */
  datatype Call = Made(e: Event) | StartFails

  function Called(s: State, c: Call): State {
    match c
    case Made(e) => Step(s, e)
    case StartFails => FailedStart(s)
  }

  function RunCalls(s: State, cs: seq<Call>): State {
    if cs == [] then s else Called(RunCalls(s, cs[..|cs| - 1]), cs[|cs| - 1])
  }

  /** The calls without the starts that fail. */
  function Effective(cs: seq<Call>): seq<Event> {
    if cs == [] then []
    else
      var before, c := cs[..|cs| - 1], cs[|cs| - 1];
      if c.Made? then Effective(before) + [c.e] else Effective(before)
  }

  /** A failed start changes at most the closed sockets of a service that is not alive, and those are never looked at. */
  lemma FailedStartIsForgotten(s: State, t: State, e: Event)
    requires FailedStart(s) == FailedStart(t)
    ensures FailedStart(Step(s, e)) == FailedStart(Step(t, e))
    ensures FailedStart(FailedStart(s)) == FailedStart(s)
  {
    hide IdFrom, IdBytes;
    assert s.alive == t.alive && (s.alive ==> s == t);
    if !s.alive {
      hide Step;
      if e == Service.Start {
        StartSteps(s);
        StartSteps(t);
      } else {
        DeadStays(s, e);
        DeadStays(t, e);
      }
    }
  }

  lemma DeadStays(s: State, e: Event)
    requires !s.alive && e != Service.Start
    ensures Step(s, e) == s
  {
  }

  /** Failed starts leave no trace: a run with them ends as the run without them, up to closed sockets while the service is
      not alive. */
  lemma {:induction false} FailedStartsLeaveNoTrace(s: State, cs: seq<Call>)
    ensures var with, without := RunCalls(s, cs), Run(s, Effective(cs));
            && with.alive == without.alive && (with.alive ==> with == without)
            && FailedStart(with) == FailedStart(without)
  {
    hide Step, FailedStart;
    if cs != [] {
      var before, c := cs[..|cs| - 1], cs[|cs| - 1];
      FailedStartsLeaveNoTrace(s, before);
      var with, without := RunCalls(s, before), Run(s, Effective(before));
      if c.Made? {
        FailedStartIsForgotten(with, without, c.e);
        RunAppend(s, Effective(before), c.e);
        SameWhileAlive(Step(with, c.e), Step(without, c.e));
      } else {
        FailedStartIsForgotten(with, without, Service.Start);
        SameWhileAlive(FailedStart(with), without);
      }
    }
  }

  lemma SameWhileAlive(s: State, t: State)
    requires FailedStart(s) == FailedStart(t)
    ensures s.alive == t.alive && (s.alive ==> s == t)
  {
  }

  lemma StartSteps(s: State)
    ensures Step(s, Service.Start) ==
              if s.alive then s else s.(alive := true, tokens := [], connected := {}, prefixes := multiset{})
  {
  }

  lemma StopSteps(s: State)
    ensures Step(s, Service.Stop) ==
              if s.alive then s.(alive := false, sockets := map[], futures := AbandonAll(s.futures), outstanding := map[],
                                 tokens := s.tokens + [Shutdown])
              else s
  {
  }

  /** The state after taking a number and registering its promise. */
  function Issued(s: State): State {
    var r := Abandon(s, s.nextId);
    r.(nextId := (s.nextId + 1) % TWO64, futures := r.futures + [Pending],
       outstanding := r.outstanding[s.nextId := |r.futures|])
  }

  /** Registering the promise first and settling it at once when there is no socket is the same as never registering it. */
  lemma SendingSteps(s: State, target: Id, msg: Msg)
    requires Conserved(s)
    ensures Step(s, Send(target, msg)) == if s.alive then SendRequest(s, target, msg) else s
    ensures var i := Issued(s);
            && s.nextId in i.outstanding && i.outstanding[s.nextId] == |s.futures| < |i.futures|
            && i.sockets == s.sockets && i.wire == s.wire && i.self == s.self
            && SendRequest(s, target, msg)
               == if target in s.sockets then
                    i.(wire := s.wire + [Packet(s.sockets[target], Request(s.nextId, IdBytes(s.self.id), msg))])
                  else
                    i.(futures := i.futures[|s.futures| := TargetUnknown], outstanding := i.outstanding - {s.nextId})
  {
    hide NumberOf, IdBytes, Conserved, Abandon;
    AbandonConserves(s, s.nextId);
    AbandonFrame(s, s.nextId);
    var r := Abandon(s, s.nextId);
    assert (r.futures + [Pending])[|r.futures| := TargetUnknown] == r.futures + [TargetUnknown];
    assert r.outstanding[s.nextId := |r.futures|] - {s.nextId} == r.outstanding;
  }

  function Arrivals(frames: seq<Frame>): seq<Event> {
    seq(|frames|, i requires 0 <= i < |frames| => Arrive(frames[i]))
  }

  lemma ArrivalsAppend(frames: seq<Frame>, i: nat)
    requires i < |frames|
    ensures Arrivals(frames[..i + 1]) == Arrivals(frames[..i]) + [Arrive(frames[i])]
  {
  }
}
