/** The event dispatcher: its queues and its table change in place, and it drives the messaging service. */
module Dispatcher {
  import opened Types
  import opened Dispatch
  import opened Messaging
  import opened OutReply
  import S = Service

  class ModuleEventDispatcher {
    const msgService: ZmqService
    var alive: bool
    var inMsgBufferSize: int
    var metaQueue: seq<Kind>
    var eventQueue: seq<Item>
    var requestQueue: seq<Item>
    var stateQueue: seq<Item>
    /** The subscriptions, ordered by number. */
    var moduleSubscriptionHandlers: seq<Handler>
    var subCounter: U32
    /** The callbacks made on the module, and the commands given to the core. */
    var delivered: seq<Delivery>
    var commands: seq<Command>

    function Abs(): State
      reads this, msgService
    {
      State(msgService.Abs(), alive, inMsgBufferSize, Queues(metaQueue, eventQueue, requestQueue, stateQueue),
            moduleSubscriptionHandlers, subCounter, delivered, commands)
    }

    constructor (self: S.Self, bufferSize: int)
      ensures Abs() == Initial(self, bufferSize) && fresh(msgService)
    {
      msgService := new ZmqService(self);
      alive, inMsgBufferSize, subCounter := false, bufferSize, 0;
      metaQueue, eventQueue, requestQueue, stateQueue := [], [], [], [];
      moduleSubscriptionHandlers, delivered, commands := [], [], [];
    }

    /** Starts the messaging service, if its sockets can be bound, and joins the own instance. */
    method Start(bufferSize: int, binds: bool) returns (ok: bool)
      modifies this, msgService
      ensures Abs() == if binds then Step(old(Abs()), Event.Start(bufferSize))
                       else old(Abs()).(bufferSize := bufferSize, svc := FailedStart(old(Abs()).svc))
      ensures ok == (binds && !old(msgService.alive)) && alive == old(alive)
      ensures msgService.alive == (binds || old(msgService.alive))
    {
      hide S.Step;
      inMsgBufferSize := bufferSize;
      ok := msgService.Start(binds);
      StartSteps(old(msgService.Abs()));
      if ok {
        var self := msgService.self;
        var joined := msgService.PeerJoin(self.id, self.repAddr, self.pubAddr);
      }
    }

    method OnEnable()
      modifies this`alive
      ensures Abs() == Step(old(Abs()), Enable) && alive
    {
      if alive { return; }
      alive := true;
    }

    /** Clears the queues, unsubscribes every handler and disables the messaging service. Fails when that is not alive. */
    method OnDisable() returns (ok: bool)
      modifies this, msgService
      ensures Abs() == DisableAll(old(Abs())) && !alive && msgService.alive == old(msgService.alive)
      ensures ok == (old(alive) ==> old(msgService.alive))
    {
      hide S.Step, UnsubscribeAll;
      ok := true;
      if !alive { return; }
      ClearQueues();
      ok := UnsubscribeHandlers();
      if !ok { return; }
      DeadServiceStays(msgService.Abs(), S.Disable);
      ok := msgService.OnDisable();
    }

    method ClearQueues()
      modifies this`alive, this`metaQueue, this`eventQueue, this`stateQueue, this`requestQueue
      ensures Abs() == old(Abs()).(alive := false, q := EMPTY)
    {
      alive := false;
      metaQueue, eventQueue, stateQueue, requestQueue := [], [], [], [];
    }

    /** Stops at the first handler whose topic cannot be unsubscribed. */
    method UnsubscribeHandlers() returns (ok: bool)
      modifies this`moduleSubscriptionHandlers, msgService
      ensures ok == (msgService.alive || old(moduleSubscriptionHandlers) == []) && msgService.alive == old(msgService.alive)
      ensures Abs() == if msgService.alive
                       then old(Abs()).(handlers := [], svc := UnsubscribeAll(old(Abs()).svc, old(Abs()).handlers))
                       else old(Abs())
    {
      hide S.Step;
      var hs := moduleSubscriptionHandlers;
      ok := true;
      var i := 0;
      while i < |hs|
        invariant 0 <= i <= |hs| && ok && msgService.alive == old(msgService.alive) && (msgService.alive || i == 0)
        invariant Abs() == old(Abs()).(svc := UnsubscribeAll(old(Abs()).svc, hs[..i]))
      {
        DeadServiceStays(msgService.Abs(), S.Unsubscribe(hs[i].topic));
        ok := msgService.Unsubscribe(hs[i].topic);
        if !ok { return; }
        assert hs[..i + 1][..i] == hs[..i];
        i := i + 1;
      }
      assert hs[..i] == hs;
      moduleSubscriptionHandlers := [];
    }

    /** Disables, then stops the service; when disabling fails the service is not alive anyway. */
    method Stop() returns (ok: bool)
      modifies this, msgService
      ensures Abs() == Step(old(Abs()), Event.Stop) && !alive && !msgService.alive
      ensures ok == (old(alive) ==> old(msgService.alive))
    {
      hide S.Step, DisableAll;
      ok := OnDisable();
      DeadServiceStays(msgService.Abs(), S.Stop);
      if ok {
        msgService.Stop();
      }
    }

    /** True when the event is to be dropped. */
    function CheckQueueSizeEventInsert(): bool
      reads this
    {
      inMsgBufferSize > 0 && |eventQueue| >= inMsgBufferSize
    }

    method OnSubMsgReceived(msg: Msg, sender: Id)
      modifies this
      ensures Abs() == Step(old(Abs()), SubMsg(msg, sender))
    {
      hide S.Step;
      if !alive { return; }
      if CheckQueueSizeEventInsert() { return; }
      eventQueue := eventQueue + [EventItem(msg, sender)];
      metaQueue := metaQueue + [EventKind];
    }

    method OnRequestMsgReceived(ext: S.ExtId, msg: Msg) returns (ok: bool)
      modifies this, msgService
      ensures Abs() == TakeRequest(old(Abs()), ext, msg)
      ensures ok == (SYSTEM_REQUEST <= msg.topic ==> old(msgService.alive))
    {
      hide S.Step;
      ok := true;
      if SYSTEM_REQUEST <= msg.topic {
        DeadServiceStays(msgService.Abs(), S.Answer(ext, SystemReply(msg.data)));
        ok := HandleSystemMessage(ext, msg);
        return;
      }
      if !alive { return; }
      requestQueue := requestQueue + [RequestItem(ext, msg, ext.sender)];
      metaQueue := [RequestKind] + metaQueue;
    }

    /** Answers a system request and passes its command to the core, unless answering fails. */
    method HandleSystemMessage(ext: S.ExtId, msg: Msg) returns (ok: bool)
      modifies this, msgService
      ensures ok == old(msgService.alive)
      ensures Abs() == old(Abs()).(svc := S.Step(old(Abs()).svc, S.Answer(ext, SystemReply(msg.data))), commands := commands)
      ensures commands == if ok && CommandIn(msg.data).Some? then old(commands) + [CommandIn(msg.data).value]
                          else old(commands)
    {
      hide S.Step;
      if msg.data == [3] {
        ok := msgService.SendReply(ext, Msg(SYSTEM_REPLY, [3]));
        if !ok { return; }
        commands := commands + [EnableModule];
      } else if msg.data == [1] {
        ok := msgService.SendReply(ext, Msg(SYSTEM_REPLY, [1]));
        if !ok { return; }
        commands := commands + [DisableModule];
      } else if msg.data == [2] {
        ok := msgService.SendReply(ext, Msg(SYSTEM_REPLY, [2]));
        if !ok { return; }
        commands := commands + [StopInstance];
      } else {
        ok := msgService.SendReply(ext, Msg(SYSTEM_REPLY, Bytes("unknown system messsage")));
      }
    }

    /** A peer's change of state, reported by discovery. Fails when the messaging service must act and is not alive. */
    method OnPeerChange(peer: Id, repAddr: Addr, pubAddr: Addr, newState: ModuleState, lastState: ModuleState)
        returns (ok: bool)
      modifies this, msgService
      ensures Abs() == Step(old(Abs()), PeerChange(peer, repAddr, pubAddr, newState, lastState))
      ensures ok == (old(Abs()).svc.alive || (newState != Dead && lastState != Dead))
    {
      hide S.Step, ZmqService.Abs, Step;
      PeerChangeTakes(Abs(), PeerChange(peer, repAddr, pubAddr, newState, lastState));
      if lastState == Dead {
        ok := msgService.PeerJoin(peer, repAddr, pubAddr);
        if !ok { DeadServiceStays(old(msgService.Abs()), S.Join(peer, repAddr, pubAddr)); return; }
      } else if newState == Dead {
        ok := msgService.PeerLeave(peer, pubAddr);
        if !ok { DeadServiceStays(old(msgService.Abs()), S.Leave(peer, pubAddr)); return; }
      }
      stateQueue := stateQueue + [StateItem(peer, newState, lastState)];
      metaQueue := [StateKind] + metaQueue;
      ok := true;
    }

    method GetSubId() returns (id: U32)
      modifies this`subCounter
      ensures id == old(subCounter) && subCounter == (old(subCounter) + 1) % TWO32
    {
      id := subCounter;
      subCounter := (subCounter + 1) % TWO32;
    }

    method Subscribe(topic: Topic) returns (handle: Option<Handler>)
      modifies this, msgService
      ensures Abs() == Step(old(Abs()), Event.Subscribe(topic))
      ensures handle == if old(alive) && old(msgService.alive) then Some(Handler(old(subCounter), topic)) else None
    {
      hide S.Step, Insert;
      if !alive { return None; }
      var id := GetSubId();
      moduleSubscriptionHandlers := Insert(moduleSubscriptionHandlers, Handler(id, topic));
      var ok := msgService.Subscribe(topic);
      handle := if ok then Some(Handler(id, topic)) else None;
    }

    method Unsubscribe(handle: Handler) returns (ok: bool)
      modifies this, msgService
      ensures Abs() == Step(old(Abs()), Event.Unsubscribe(handle))
      ensures ok == (old(alive) && old(msgService.alive))
    {
      hide S.Step, Erase;
      ok := alive;
      if !alive { return; }
      moduleSubscriptionHandlers := Erase(moduleSubscriptionHandlers, handle.subId);
      ok := msgService.Unsubscribe(handle.topic);
    }

    // ---- The delivery thread ----

    /** One pass of the delivery loop, given the module's replies: whether it is enabled each time that is asked, and what
        it returns for a request. No queue is waited on: a token always finds its item. */
    method DeliverNotification(asked: seq<bool>, reply: ZmfOutReply)
      requires alive && metaQueue != [] && Orderly(Abs())
      modifies this, msgService, reply
      ensures Abs() == Step(old(Abs()), Deliver(asked, reply.AtOnce()))
    {
      hide S.Step, Selected, Deliveries, KindsMatch, TokensMatch, UrgentFirst, ZmqService.Abs;
      hide Step, DeliverNext;
      PopKeepsOrder(Abs().q);
      DeliverTakes(Abs(), asked, reply.AtOnce());
      var token := metaQueue[0];
      metaQueue := metaQueue[1..];
      match token {
        case EventKind => DeliverEvent(asked);
        case RequestKind => DeliverRequest(asked, reply);
        case StateKind => DeliverState(asked);
      }
    }

    /** Every handler whose topic the message's topic starts with is called, in the order of the numbers, if the module is
        enabled at its turn. */
    method DeliverEvent(asked: seq<bool>)
      requires eventQueue != [] && eventQueue[0].EventItem?
      modifies this`eventQueue, this`delivered
      ensures eventQueue == old(eventQueue)[1..]
      ensures delivered == old(delivered) + Selected(Deliveries(moduleSubscriptionHandlers, old(eventQueue)[0]), asked)
    {
      hide Matching, Selected;
      var item := eventQueue[0];
      eventQueue := eventQueue[1..];
      var hs := moduleSubscriptionHandlers;
      NothingSelected(item.msg, item.sender, asked);
      var i, found := 0, 0;
      while i < |hs|
        invariant 0 <= i <= |hs| && moduleSubscriptionHandlers == hs && eventQueue == old(eventQueue)[1..]
        invariant found == |Matching(hs[..i], item.msg, item.sender)|
        invariant delivered == old(delivered) + Selected(Matching(hs[..i], item.msg, item.sender), asked)
      {
        MatchingNext(hs, i, item.msg, item.sender);
        if hs[i].topic <= item.msg.topic {
          var call := ToHandler(hs[i].subId, item.msg, item.sender);
          SelectedNext(Matching(hs[..i], item.msg, item.sender), call, asked);
          if Granted(asked, found) {
            delivered := delivered + [call];
            assert old(delivered) + Selected(Matching(hs[..i], item.msg, item.sender), asked) + [call]
                == old(delivered) + (Selected(Matching(hs[..i], item.msg, item.sender), asked) + [call]);
          }
          found := found + 1;
        }
        i := i + 1;
      }
      assert hs[..i] == hs;
    }

    /** A request goes to an enabled module. An immediate reply is sent; one for the future is given the service and the
        request's identity; neither happens without a reply. */
    method DeliverRequest(asked: seq<bool>, reply: ZmfOutReply)
      requires requestQueue != [] && requestQueue[0].RequestItem?
      modifies this`requestQueue, this`delivered, msgService, reply
      ensures requestQueue == old(requestQueue)[1..]
      ensures delivered == old(delivered) + Selected([ToModule(old(requestQueue)[0])], asked)
      ensures msgService.Abs() == if Granted(asked, 0) && reply.kind == ImmediateReply
                                  then S.Step(old(msgService.Abs()), S.Answer(old(requestQueue)[0].ext, reply.immediate))
                                  else old(msgService.Abs())
      ensures reply.finished == old(reply.finished)
      ensures if Granted(asked, 0) && reply.kind == FutureReply
              then reply.service == msgService && reply.requestId == Some(old(requestQueue)[0].ext)
              else reply.service == old(reply.service) && reply.requestId == old(reply.requestId)
    {
      hide S.Step;
      var item := requestQueue[0];
      requestQueue := requestQueue[1..];
      OneSelected(ToModule(item), asked);
      hide Selected;
      if Granted(asked, 0) {
        delivered := delivered + [ToModule(item)];
        match reply.kind {
          case ImmediateReply =>
            var ok := msgService.SendReply(item.ext, reply.immediate);
          case FutureReply => reply.InjectService(msgService, item.ext);
          case NoReply =>
        }
      }
    }

    method DeliverState(asked: seq<bool>)
      requires stateQueue != []
      modifies this`stateQueue, this`delivered
      ensures stateQueue == old(stateQueue)[1..]
      ensures delivered == old(delivered) + Selected([ToModule(old(stateQueue)[0])], asked)
    {
      var item := stateQueue[0];
      stateQueue := stateQueue[1..];
      OneSelected(ToModule(item), asked);
      hide Selected;
      if Granted(asked, 0) {
        delivered := delivered + [ToModule(item)];
      }
    }
  }

  /** What comes of a request that a module enabled at its turn handles, by the reply it makes and whether it hands that
      over by moving it: an immediate reply leaves for the sender of the request, which waits no longer; a moved one leaves
      empty; a promised one or none leaves nothing, and the request waits on. */
  method RespondWith(dispatcher: ModuleEventDispatcher, made: ReplyType, msg: Msg, moved: bool, asked: seq<bool>)
    requires Answerable(dispatcher.Abs()) && Orderly(dispatcher.Abs()) && asked != [] && asked[0]
    modifies dispatcher, dispatcher.msgService
    ensures var ext, svc := Next(old(dispatcher.Abs()).q).value.ext, old(dispatcher.Abs()).svc;
            dispatcher.Abs().svc
            == if made == ImmediateReply then
                 svc.(replies := svc.replies - {ext},
                      wire := svc.wire + [S.Packet(svc.sockets[ext.sender],
                                                   S.Reply(ext.reqId, if moved then Msg([], []) else msg))])
               else svc
  {
    hide Orderly, Step, S.RepliesToSender, S.Step, Granted, ZmqService.Abs;
    var reply := ReplyOf(made, msg, moved);
    assert reply.AtOnce() == if made == ImmediateReply then Some(if moved then Msg([], []) else msg) else Option.None;
    ReplyAtOnceIsSent(dispatcher.Abs(), asked, reply.AtOnce());
    dispatcher.DeliverNotification(asked, reply);
  }

  method ReplyOf(made: ReplyType, msg: Msg, moved: bool) returns (reply: ZmfOutReply)
    ensures fresh(reply) && reply.kind == made
    ensures made == ImmediateReply ==> reply.immediate == if moved then Msg([], []) else msg
  {
    if made == ImmediateReply {
      reply := new ZmfOutReply.Immediate(msg);
    } else if made == FutureReply {
      reply := new ZmfOutReply.Future();
    } else {
      reply := new ZmfOutReply.None();
    }
    if moved {
      reply := new ZmfOutReply.Moved(reply);
    }
  }

  lemma DeliverTakes(s: State, asked: seq<bool>, reply: Option<Msg>)
    requires s.alive && Next(s.q).Some?
    ensures var i := Next(s.q).value;
            Step(s, Deliver(asked, reply))
            == s.(q := Pop(s.q), delivered := s.delivered + Selected(Deliveries(s.handlers, i), asked),
                  svc := if i.RequestItem? && Granted(asked, 0) && reply.Some?
                         then S.Step(s.svc, S.Answer(i.ext, reply.value)) else s.svc)
    ensures !Next(s.q).value.EventItem? ==> Deliveries(s.handlers, Next(s.q).value) == [ToModule(Next(s.q).value)]
  {
    hide S.Step, Matching, DisableAll, TakeEvent, TakeFrame, TakePeerChange, SubscribeTo, UnsubscribeFrom;
  }

  lemma NothingSelected(msg: Msg, sender: Id, asked: seq<bool>)
    ensures Matching([], msg, sender) == [] && Selected([], asked) == []
  {
  }

  lemma SelectedNext(ds: seq<Delivery>, d: Delivery, asked: seq<bool>)
    ensures Selected(ds + [d], asked) == if Granted(asked, |ds|) then Selected(ds, asked) + [d] else Selected(ds, asked)
  {
    assert (ds + [d])[..|ds|] == ds;
  }

  lemma PeerChangeTakes(s: State, e: Event)
    requires e.PeerChange?
    ensures Step(s, e) == TakePeerChange(s, e)
  {
  }

  lemma MatchingNext(hs: seq<Handler>, i: nat, msg: Msg, sender: Id)
    requires i < |hs|
    ensures Matching(hs[..i + 1], msg, sender)
         == if hs[i].topic <= msg.topic then Matching(hs[..i], msg, sender) + [ToHandler(hs[i].subId, msg, sender)]
            else Matching(hs[..i], msg, sender)
  {
    assert hs[..i + 1][..i] == hs[..i];
  }

  lemma DeadServiceStays(svc: S.State, e: S.Event)
    requires e != S.Start
    ensures !svc.alive ==> S.Step(svc, e) == svc
  {
  }
}
