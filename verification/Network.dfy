/** Any number of nodes and a network that may lose, delay, reorder and repeat packets: a future only ever holds the
    reply its own request was given. */
module Network {
  import opened Types
  import opened Service

  /** A node: its service, the requests its module issued in order, and the replies its module gave. */
  datatype Node = Node(service: State, calls: seq<(Id, Msg)>, answers: seq<(ExtId, Msg)>)

  type Net = map<Id, Node>

  /** A call or a notification at a node, or the arrival of any packet that was ever sent. */
  datatype Action = Local(node: Id, e: Event) | Deliver(from: Id, i: nat, to: Id)

  function Rep(net: Net, id: Id): Addr
    requires id in net
  {
    net[id].service.self.repAddr
  }

  /** Nodes are known by their own ids and have distinct addresses. */
  ghost predicate Wired(net: Net) {
    && (forall a :: a in net ==> net[a].service.self.id == a)
    && forall a, b :: a in net && b in net && Rep(net, a) == Rep(net, b) ==> a == b
  }

  ghost predicate Fresh(net: Net) {
    Wired(net) && forall a :: a in net ==> net[a] == Node(Initial(net[a].service.self), [], [])
  }

  function Pub(net: Net, id: Id): Addr
    requires id in net
  {
    net[id].service.self.pubAddr
  }

  /** A peer joins and leaves with its real addresses; a packet arrives where it was sent. */
  predicate Allowed(net: Net, x: Action) {
    match x
    case Local(a, e) =>
      && a in net && !e.Arrive?
      && (e.Join? ==> e.id in net && e.repAddr == Rep(net, e.id) && e.pubAddr == Pub(net, e.id))
      && (e.Leave? ==> e.id in net && e.pubAddr == Pub(net, e.id))
    case Deliver(from, i, to) =>
      from in net && i < |net[from].service.wire| && to in net && Rep(net, to) == net[from].service.wire[i].to
  }

  function NodeStep(n: Node, e: Event): Node {
    Node(Step(n.service, e),
         if n.service.alive && e.Send? then n.calls + [(e.target, e.msg)] else n.calls,
         if e.Answer? && Replies(n.service, e, e.ext) then n.answers + [(e.ext, e.msg)] else n.answers)
  }

  function Actor(x: Action): Id {
    match x
    case Local(a, _) => a
    case Deliver(_, _, to) => to
  }

  function EventOf(net: Net, x: Action): Event
    requires Allowed(net, x)
  {
    match x
    case Local(_, e) => e
    case Deliver(from, i, _) => Arrive(net[from].service.wire[i].frame)
  }

  function Next(net: Net, x: Action): Net
    requires Allowed(net, x)
  {
    net[Actor(x) := NodeStep(net[Actor(x)], EventOf(net, x))]
  }

  /** A run: each action is allowed where it happens. */
  ghost predicate IsRun(trace: seq<Net>, actions: seq<Action>) {
    && |trace| == |actions| + 1 && Fresh(trace[0])
    && forall k :: 0 <= k < |actions| ==> Allowed(trace[k], actions[k]) && trace[k + 1] == Next(trace[k], actions[k])
  }

  /** No node has issued more requests than there are numbers. */
  ghost predicate Few(net: Net) {
    forall a :: a in net ==> |net[a].service.futures| <= TWO64
  }

  // ---- The invariant ----

  /** Request n of node a went to b with this message. */
  predicate Asked(net: Net, a: Id, n: int, b: Id, msg: Msg) {
    a in net && 0 <= n < |net[a].calls| && net[a].calls[n] == (b, msg)
  }

  /** Node b's module was handed request n of node a, with the message that a sent. */
  ghost predicate Handed(net: Net, b: Id, ext: ExtId) {
    && b in net && ext.sender in net && ext.reqId < |net[ext.sender].calls|
    && net[ext.sender].calls[ext.reqId].0 == b
    && (ext, net[ext.sender].calls[ext.reqId].1) in net[b].service.received
  }

  /** Node b's module answered the request with this message. */
  ghost predicate Answered(net: Net, b: Id, ext: ExtId, msg: Msg) {
    Handed(net, b, ext) && (ext, msg) in net[b].answers
  }

  ghost predicate SoundPacket(net: Net, a: Id, p: Packet) {
    match p.frame
    case Request(n, sender, msg) =>
      sender == IdBytes(a) && forall b :: b in net && Rep(net, b) == p.to ==> Asked(net, a, n, b, msg)
    case Reply(n, msg) => forall b :: b in net && Rep(net, b) == p.to ==> Answered(net, a, ExtId(b, n), msg)
    case Hello(sender, repAddr, pubAddr) =>
      a in net && sender == IdBytes(a) && repAddr == Rep(net, a) && pubAddr == Pub(net, a)
  }

  ghost predicate SoundWire(net: Net, a: Id)
    requires a in net
  {
    forall i :: 0 <= i < |net[a].service.wire| ==> SoundPacket(net, a, net[a].service.wire[i])
  }

  ghost predicate SoundSockets(net: Net, a: Id)
    requires a in net
  {
    forall b :: b in net[a].service.sockets ==> b in net && net[a].service.sockets[b] == Rep(net, b)
  }

  ghost predicate SoundReplies(net: Net, a: Id)
    requires a in net
  {
    forall ext :: ext in net[a].service.replies ==> net[a].service.replies[ext] == ext.sender && Handed(net, a, ext)
  }

  /** Every future that holds a value holds what the request's own target answered to it. */
  ghost predicate SoundFutures(net: Net, a: Id)
    requires a in net
  {
    && Conserved(net[a].service) && |net[a].calls| == |net[a].service.futures|
    && forall k :: 0 <= k < |net[a].calls| && net[a].service.futures[k].Value? ==>
         k < TWO64 && Answered(net, net[a].calls[k].0, ExtId(a, k), net[a].service.futures[k].msg)
  }

  ghost predicate Sound(net: Net) {
    Wired(net) && forall a :: a in net ==>
      SoundSockets(net, a) && SoundReplies(net, a) && SoundWire(net, a) && SoundFutures(net, a)
  }

  // ---- What a step adds ----

  /** The packets an event puts on the wire. */
  function Emitted(s: State, e: Event): seq<Packet> {
    var hello := Frame.Hello(IdBytes(s.self.id), s.self.repAddr, s.self.pubAddr);
    if !s.alive then []
    else if e.Send? && e.target in s.sockets then
      [Packet(s.sockets[e.target], Request(s.nextId, IdBytes(s.self.id), e.msg))]
    else if e.Answer? && Replies(s, e, e.ext) then [Packet(s.sockets[s.replies[e.ext]], Reply(e.ext.reqId, e.msg))]
    else if e.Join? && e.id !in s.sockets then [Packet(e.repAddr, hello)]
    else if e.Arrive? && e.frame.Hello? && IdFrom(e.frame.sender) !in s.sockets then [Packet(e.frame.repAddr, hello)]
    else []
  }

  lemma StepEmits(s: State, e: Event)
    ensures Step(s, e).wire == s.wire + Emitted(s, e)
    ensures Step(s, e).self == s.self
    ensures s.received <= Step(s, e).received
  {
    hide IdFrom, IdBytes, Settle, ApplyMember, ApplySubscription;
    assert s.wire + [] == s.wire;
    match e {
      case Send(_, _) => SettleFrame(s, s.nextId, Abandoned);
      case Cancel(reqId) => SettleFrame(s, reqId, Abandoned);
      case Arrive(f) => if f.Reply? { SettleFrame(s, f.reqId, Value(f.msg)); }
      case _ =>
    }
  }

  lemma StepSockets(s: State, e: Event, id: Id)
    requires id in Step(s, e).sockets
    ensures || (id in s.sockets && Step(s, e).sockets[id] == s.sockets[id])
            || (e.Join? && e.id == id && Step(s, e).sockets[id] == e.repAddr)
            || (e.Arrive? && e.frame.Hello? && IdFrom(e.frame.sender) == id && Step(s, e).sockets[id] == e.frame.repAddr)
  {
    hide IdFrom, IdBytes;
  }

  lemma StepReplies(s: State, e: Event, ext: ExtId)
    requires ext in Step(s, e).replies
    ensures || (ext in s.replies && Step(s, e).replies[ext] == s.replies[ext])
            || (Requests(e, ext) && Step(s, e).replies[ext] == ext.sender
                && (ext, e.frame.msg) in Step(s, e).received)
  {
    hide IdFrom, IdBytes, Settle, ApplyMember, ApplySubscription;
    match e {
      case Send(_, _) => SettleFrame(s, s.nextId, Abandoned);
      case Cancel(reqId) => SettleFrame(s, reqId, Abandoned);
      case Arrive(f) => if f.Reply? { SettleFrame(s, f.reqId, Value(f.msg)); }
      case _ =>
    }
  }

  /** The later network knows everything the earlier one knew. */
  ghost predicate Grows(net: Net, later: Net) {
    && later.Keys == net.Keys
    && forall a :: a in net ==>
         && later[a].service.self == net[a].service.self
         && net[a].calls <= later[a].calls && net[a].answers <= later[a].answers
         && net[a].service.received <= later[a].service.received
  }

  lemma NextGrows(net: Net, x: Action)
    requires Allowed(net, x)
    ensures Grows(net, Next(net, x))
    ensures Wired(net) ==> Wired(Next(net, x))
  {
    hide Step, Replies, Emitted;
    StepEmits(net[Actor(x)].service, EventOf(net, x));
  }

  lemma HandedLater(net: Net, later: Net, b: Id, ext: ExtId)
    requires Grows(net, later) && Handed(net, b, ext)
    ensures Handed(later, b, ext)
  {
  }

  lemma AnsweredLater(net: Net, later: Net, b: Id, ext: ExtId, msg: Msg)
    requires Grows(net, later) && Answered(net, b, ext, msg)
    ensures Answered(later, b, ext, msg)
  {
    HandedLater(net, later, b, ext);
    hide Handed;
  }

  lemma PacketLater(net: Net, later: Net, a: Id, p: Packet)
    requires Grows(net, later) && SoundPacket(net, a, p)
    ensures SoundPacket(later, a, p)
  {
    hide IdBytes;
    if p.frame.Reply? {
      forall b | b in later && Rep(later, b) == p.to
        ensures Answered(later, a, ExtId(b, p.frame.reqId), p.frame.msg)
      {
        AnsweredLater(net, later, a, ExtId(b, p.frame.reqId), p.frame.msg);
      }
    }
  }

  // ---- The invariant is kept ----

  /** Nodes that do not act keep their invariants. */
  lemma OthersStaySound(net: Net, x: Action, a: Id)
    requires Allowed(net, x) && Sound(net) && a in net && a != Actor(x)
    ensures SoundSockets(Next(net, x), a) && SoundReplies(Next(net, x), a)
    ensures SoundWire(Next(net, x), a) && SoundFutures(Next(net, x), a)
  {
    hide Step, NodeStep, Handed, Answered, Conserved, SoundPacket;
    NextGrows(net, x);
    OldFactsLater(net, Next(net, x), a);
  }

  /** What held of a node's old replies, packets and futures holds in the later network. */
  lemma OldFactsLater(net: Net, later: Net, a: Id)
    requires Sound(net) && Grows(net, later) && a in net
    ensures forall ext :: ext in net[a].service.replies ==> Handed(later, a, ext)
    ensures forall i :: 0 <= i < |net[a].service.wire| ==> SoundPacket(later, a, net[a].service.wire[i])
    ensures forall k :: 0 <= k < |net[a].calls| && net[a].service.futures[k].Value? ==>
              Answered(later, net[a].calls[k].0, ExtId(a, k), net[a].service.futures[k].msg)
  {
    hide Grows, Handed, Answered, SoundPacket, Conserved;
    forall ext | ext in net[a].service.replies
      ensures Handed(later, a, ext)
    {
      HandedLater(net, later, a, ext);
    }
    forall i | 0 <= i < |net[a].service.wire|
      ensures SoundPacket(later, a, net[a].service.wire[i])
    {
      PacketLater(net, later, a, net[a].service.wire[i]);
    }
    forall k | 0 <= k < |net[a].calls| && net[a].service.futures[k].Value?
      ensures Answered(later, net[a].calls[k].0, ExtId(a, k), net[a].service.futures[k].msg)
    {
      AnsweredLater(net, later, net[a].calls[k].0, ExtId(a, k), net[a].service.futures[k].msg);
    }
  }

  /** A delivered frame is one its sender's wire vouches for. */
  lemma DeliveredIsSound(net: Net, x: Action)
    requires Allowed(net, x) && Sound(net) && x.Deliver?
    ensures SoundPacket(net, x.from, net[x.from].service.wire[x.i])
    ensures Rep(net, x.to) == net[x.from].service.wire[x.i].to
  {
    hide SoundPacket;
  }

  lemma ActorSockets(net: Net, x: Action)
    requires Allowed(net, x) && Sound(net)
    ensures SoundSockets(Next(net, x), Actor(x))
  {
    var a, e, later := Actor(x), EventOf(net, x), Next(net, x);
    assert later[a].service == Step(net[a].service, e);
    NextGrows(net, x);
    hide Step, IdFrom, IdBytes, NodeStep, Next;
    forall b | b in later[a].service.sockets
      ensures b in net && later[a].service.sockets[b] == Rep(net, b)
    {
      StepSockets(net[a].service, e, b);
      hide SoundReplies, SoundWire, SoundFutures;
      if e.Arrive? && e.frame.Hello? {
        HelloNamesSender(net, x);
      }
    }
    hide Sound;
  }

  /** A delivered greeting carries its sender's id and address. */
  lemma HelloNamesSender(net: Net, x: Action)
    requires Allowed(net, x) && Sound(net) && EventOf(net, x).Arrive? && EventOf(net, x).frame.Hello?
    ensures x.Deliver? && x.from in net
    ensures IdFrom(EventOf(net, x).frame.sender) == x.from && EventOf(net, x).frame.repAddr == Rep(net, x.from)
    ensures EventOf(net, x).frame.pubAddr == Pub(net, x.from)
  {
    hide IdBytes, IdFrom;
    DeliveredIsSound(net, x);
    IdRoundTrip(x.from);
    hide Sound;
  }

  /** A delivered request is the receiver's to handle, and carries what its sender asked. */
  lemma RequestNamesSender(net: Net, x: Action)
    requires Allowed(net, x) && Sound(net) && EventOf(net, x).Arrive? && EventOf(net, x).frame.Request?
    ensures x.Deliver? && IdFrom(EventOf(net, x).frame.sender) == x.from
    ensures Asked(net, x.from, EventOf(net, x).frame.reqId, Actor(x), EventOf(net, x).frame.msg)
  {
    hide IdBytes, IdFrom;
    DeliveredIsSound(net, x);
    IdRoundTrip(x.from);
    hide Sound, Asked;
  }

  lemma ActorReplies(net: Net, x: Action)
    requires Allowed(net, x) && Sound(net)
    ensures SoundReplies(Next(net, x), Actor(x))
  {
    hide SoundPacket, Conserved;
    var a, e, later := Actor(x), EventOf(net, x), Next(net, x);
    assert later[a].service == Step(net[a].service, e);
    NextGrows(net, x);
    OldFactsLater(net, later, a);
    hide Step, IdFrom, IdBytes, NodeStep, Next, EventOf, Allowed;
    forall ext | ext in later[a].service.replies
      ensures later[a].service.replies[ext] == ext.sender && Handed(later, a, ext)
    {
      StepReplies(net[a].service, e, ext);
      hide SoundWire, SoundFutures, SoundSockets;
      if ext in net[a].service.replies && later[a].service.replies[ext] == net[a].service.replies[ext] {
        hide Handed;
      } else {
        RequestNamesSender(net, x);
        hide Sound;
      }
    }
  }

  lemma ActorWire(net: Net, x: Action)
    requires Allowed(net, x) && Sound(net) && Few(Next(net, x))
    ensures SoundWire(Next(net, x), Actor(x))
  {
    var a, e, later := Actor(x), EventOf(net, x), Next(net, x);
    var s := net[a].service;
    NextGrows(net, x);
    OldFactsLater(net, later, a);
    StepEmits(s, e);
    forall i | 0 <= i < |Emitted(s, e)|
      ensures SoundPacket(later, a, Emitted(s, e)[i])
    {
      EmittedIsSound(net, x);
    }
  }

  lemma EmittedIsSound(net: Net, x: Action)
    requires Allowed(net, x) && Sound(net) && Few(Next(net, x))
    ensures var packets := Emitted(net[Actor(x)].service, EventOf(net, x));
            forall i :: 0 <= i < |packets| ==> SoundPacket(Next(net, x), Actor(x), packets[i])
  {
    hide IdBytes, IdFrom, SoundPacket, Few, Next, EventOf, Requests, NodeStep, Step;
    hide SoundWire, SoundFutures, SoundReplies, SoundSockets, Conserved;
    SelfStays(net, x);
    var a, e := Actor(x), EventOf(net, x);
    var s := net[a].service;
    hide Sound, Allowed;
    if s.alive && e.Send? && e.target in s.sockets {
      SentRequest(net, x);
    } else if s.alive && e.Answer? && Replies(s, e, e.ext) {
      SentReply(net, x);
    } else if Emitted(s, e) != [] {
      HelloIsSound(Next(net, x), a, Emitted(s, e)[0].to);
    }
  }

  lemma SelfStays(net: Net, x: Action)
    requires Allowed(net, x) && Wired(net)
    ensures Actor(x) in net && Actor(x) in Next(net, x)
    ensures net[Actor(x)].service.self.id == Actor(x)
    ensures Next(net, x)[Actor(x)].service.self == net[Actor(x)].service.self
  {
    StepEmits(net[Actor(x)].service, EventOf(net, x));
    hide Step;
  }

  lemma HelloIsSound(net: Net, a: Id, to: Addr)
    requires a in net
    ensures SoundPacket(net, a, Packet(to, Frame.Hello(IdBytes(a), Rep(net, a), net[a].service.self.pubAddr)))
  {
    hide IdBytes;
  }

  lemma SentRequest(net: Net, x: Action)
    requires Allowed(net, x) && Sound(net) && Few(Next(net, x))
    requires EventOf(net, x).Send? && net[Actor(x)].service.alive
    requires EventOf(net, x).target in net[Actor(x)].service.sockets
    ensures var s, e := net[Actor(x)].service, EventOf(net, x);
            SoundPacket(Next(net, x), Actor(x), Packet(s.sockets[e.target], Request(s.nextId, IdBytes(s.self.id), e.msg)))
  {
    NextGrows(net, x);
    SentNumber(net, x);
    hide IdBytes, NodeStep, Conserved, Handed, SoundReplies, SoundWire;
    var a, e, later := Actor(x), EventOf(net, x), Next(net, x);
    var n := |net[a].calls|;
    assert later[a].calls[n] == (e.target, e.msg);
    assert Asked(later, a, n, e.target, e.msg);
  }

  lemma SentReply(net: Net, x: Action)
    requires Allowed(net, x) && Sound(net)
    requires EventOf(net, x).Answer? && Replies(net[Actor(x)].service, EventOf(net, x), EventOf(net, x).ext)
    ensures var s, e := net[Actor(x)].service, EventOf(net, x);
            SoundPacket(Next(net, x), Actor(x), Packet(s.sockets[s.replies[e.ext]], Reply(e.ext.reqId, e.msg)))
  {
    hide Step, SoundWire, SoundFutures, SoundSockets, SoundReplies, Handed, IdBytes;
    var a, e, later := Actor(x), EventOf(net, x), Next(net, x);
    NextGrows(net, x);
    assert a in later && later[a].answers == net[a].answers + [(e.ext, e.msg)];
    hide NodeStep, Next, EventOf;
    SocketOfAnswer(net, a, e.ext);
    HandedLater(net, later, a, e.ext);
    assert Answered(later, a, e.ext, e.msg);
    hide Sound, Answered;
  }

  lemma SocketOfAnswer(net: Net, a: Id, ext: ExtId)
    requires Sound(net) && a in net && ext in net[a].service.replies
    ensures net[a].service.replies[ext] == ext.sender && Handed(net, a, ext) && ext.sender in net
    ensures ext.sender in net[a].service.sockets ==> net[a].service.sockets[ext.sender] == Rep(net, ext.sender)
    ensures forall b :: b in net && Rep(net, b) == Rep(net, ext.sender) ==> b == ext.sender
  {
    hide SoundWire, SoundFutures;
  }

  /** Sending issues one request, and no other event does. */
  lemma IssuedRequests(s: State, e: Event)
    requires Conserved(s)
    ensures |Step(s, e).futures| == |s.futures| + if s.alive && e.Send? then 1 else 0
  {
    hide IdBytes, IdFrom, Settle, Paired, ApplyMember, ApplySubscription;
  }

  /** The number of a request is its position among the calls. */
  lemma SentNumber(net: Net, x: Action)
    requires Allowed(net, x) && Sound(net) && Few(Next(net, x))
    requires EventOf(net, x).Send? && net[Actor(x)].service.alive
    ensures net[Actor(x)].service.nextId == |net[Actor(x)].calls|
    ensures Next(net, x)[Actor(x)].calls == net[Actor(x)].calls + [(EventOf(net, x).target, EventOf(net, x).msg)]
  {
    hide Step, Handed, SoundReplies, SoundWire, SoundSockets;
    var s, e := net[Actor(x)].service, EventOf(net, x);
    IssuedRequests(s, e);
    assert |Next(net, x)[Actor(x)].service.futures| <= TWO64;
    NumbersAreFresh(s, e.target, e.msg);
  }

  lemma ActorFutures(net: Net, x: Action)
    requires Allowed(net, x) && Sound(net) && Few(Next(net, x))
    ensures SoundFutures(Next(net, x), Actor(x))
  {
    hide Answered, SoundWire, SoundReplies, SoundSockets, Few, Conserved, Grows, Step;
    var a, e, later := Actor(x), EventOf(net, x), Next(net, x);
    var s, s' := net[a].service, later[a].service;
    assert s' == Step(s, e);
    assert later[a].calls == if s.alive && e.Send? then net[a].calls + [(e.target, e.msg)] else net[a].calls;
    NextGrows(net, x);
    OldFactsLater(net, later, a);
    StepConserves(s, e);
    IssuedRequests(s, e);
    FewEarlier(net, x);
    CallsAreFew(net, a);
    hide NodeStep, Next, EventOf, Allowed;
    forall k | 0 <= k < |later[a].calls| && s'.futures[k].Value?
      ensures k < TWO64 && Answered(later, later[a].calls[k].0, ExtId(a, k), s'.futures[k].msg)
    {
      FuturesSettleOnce(s, e, k);
      if s.futures[k] == Pending {
        ValueDelivered(net, x, k);
      }
    }
  }

  /** A pending future gets its value from a delivered answer of its own target. */
  lemma ValueDelivered(net: Net, x: Action, k: nat)
    requires Allowed(net, x) && Sound(net) && Few(net)
    requires k < |net[Actor(x)].calls|
    requires EventOf(net, x).Arrive? && EventOf(net, x).frame.Reply? && EventOf(net, x).frame.reqId == NumberOf(k)
    ensures k < TWO64
    ensures Answered(Next(net, x), net[Actor(x)].calls[k].0, ExtId(Actor(x), k), EventOf(net, x).frame.msg)
  {
    hide Sound, Few, NodeStep, Next, Grows, Answered, SoundPacket;
    var a, m := Actor(x), EventOf(net, x).frame.msg;
    CallsAreFew(net, a);
    NextGrows(net, x);
    DeliveredIsSound(net, x);
    ReplyVouches(net, x.from, net[x.from].service.wire[x.i], a);
    AnsweredLater(net, Next(net, x), x.from, ExtId(a, k), m);
    AnsweredIsTarget(net, x.from, ExtId(a, k), m);
  }

  lemma CallsAreFew(net: Net, a: Id)
    requires Sound(net) && Few(net) && a in net
    ensures |net[a].calls| <= TWO64
  {
    hide Conserved, SoundReplies, SoundSockets, SoundWire, Answered;
  }

  lemma ReplyVouches(net: Net, b: Id, p: Packet, a: Id)
    requires SoundPacket(net, b, p) && p.frame.Reply? && a in net && Rep(net, a) == p.to
    ensures Answered(net, b, ExtId(a, p.frame.reqId), p.frame.msg)
  {
    hide Answered;
  }

  lemma AnsweredIsTarget(net: Net, b: Id, ext: ExtId, msg: Msg)
    requires Answered(net, b, ext, msg)
    ensures ext.sender in net && ext.reqId < |net[ext.sender].calls| && net[ext.sender].calls[ext.reqId].0 == b
    ensures b in net && (ext, net[ext.sender].calls[ext.reqId].1) in net[b].service.received && (ext, msg) in net[b].answers
  {
  }

  lemma FewEarlier(net: Net, x: Action)
    requires Allowed(net, x) && Few(Next(net, x))
    ensures Few(net)
  {
    var later := Next(net, x);
    forall a | a in net
      ensures |net[a].service.futures| <= |later[a].service.futures|
    {
      FuturesGrow(net[Actor(x)].service, EventOf(net, x));
      hide Step;
    }
  }

  lemma FuturesGrow(s: State, e: Event)
    ensures |s.futures| <= |Step(s, e).futures|
  {
    hide IdBytes, IdFrom;
  }

  /** Every allowed action keeps the invariant. */
  lemma NextKeepsSound(net: Net, x: Action)
    requires Allowed(net, x) && Sound(net) && Few(Next(net, x))
    ensures Sound(Next(net, x))
  {
    var later := Next(net, x);
    NextGrows(net, x);
    FewEarlier(net, x);
    ActorSockets(net, x);
    ActorReplies(net, x);
    ActorWire(net, x);
    ActorFutures(net, x);
    hide SoundSockets, SoundReplies, SoundWire, SoundFutures, NodeStep, EventOf, Allowed;
    forall a | a in later && a != Actor(x)
      ensures SoundSockets(later, a) && SoundReplies(later, a) && SoundWire(later, a) && SoundFutures(later, a)
    {
      OthersStaySound(net, x, a);
    }
  }

  lemma FreshIsSound(net: Net)
    requires Fresh(net)
    ensures Sound(net)
  {
  }

  lemma {:induction false} RunKeepsSound(trace: seq<Net>, actions: seq<Action>, k: nat)
    requires IsRun(trace, actions) && k <= |actions| && Few(trace[k])
    ensures Sound(trace[k])
  {
    hide Sound, Few, Allowed, Next, Fresh;
    if k == 0 {
      FreshIsSound(trace[0]);
    } else {
      FewEarlier(trace[k - 1], actions[k - 1]);
      RunKeepsSound(trace, actions, k - 1);
      NextKeepsSound(trace[k - 1], actions[k - 1]);
    }
  }

  /** End to end, in every run with at most 2^64 requests per node: a value in the future of node a's request k is a
      reply that the module of the chosen target gave to that very request, having been handed what a sent. */
  lemma ValueIsTargetsAnswer(trace: seq<Net>, actions: seq<Action>, a: Id, k: nat)
    requires IsRun(trace, actions) && Few(trace[|actions|])
    requires a in trace[|actions|] && k < |trace[|actions|][a].service.futures|
    requires trace[|actions|][a].service.futures[k].Value?
    ensures var net := trace[|actions|];
            && k < TWO64 && k < |net[a].calls|
            && var (b, asked) := net[a].calls[k];
               && b in net
               && (ExtId(a, k), asked) in net[b].service.received
               && (ExtId(a, k), net[a].service.futures[k].msg) in net[b].answers
  {
    RunKeepsSound(trace, actions, |actions|);
    var net := trace[|actions|];
    hide IsRun, Few, SoundSockets, SoundWire, SoundReplies, Answered, Conserved;
    AnsweredIsTarget(net, net[a].calls[k].0, ExtId(a, k), net[a].service.futures[k].msg);
  }

  // ---- Memberships ----

  function Pubs(net: Net): map<Id, Addr> {
    map a | a in net :: Pub(net, a)
  }

  /** Draining the membership queue connects the node's SUB socket to exactly the peers it has a request socket for. */
  ghost predicate MembersFit(net: Net, a: Id)
    requires a in net
  {
    MembersKept(Pubs(net), net[a].service)
  }

  /** A stop, if it is one, finds nobody joining in the node's queue. */
  predicate StopsClean(net: Net, x: Action)
    requires Allowed(net, x)
  {
    var s := net[Actor(x)].service;
    s.alive && EventOf(net, x) == Stop ==> LeavesNobody(s.members)
  }

  /** The only action that can break the memberships is a stop that finds somebody joining in its queue, and it does. */
  lemma NextKeepsMembers(net: Net, x: Action)
    requires Allowed(net, x) && Sound(net) && OneAddressEach(Pubs(net))
    requires forall a :: a in net ==> MembersFit(net, a)
    ensures Pubs(Next(net, x)) == Pubs(net)
    ensures (forall a :: a in net ==> MembersFit(Next(net, x), a)) <==> StopsClean(net, x)
  {
    hide Sound, Addressed, OneAddressEach, MembersKept, LeavesNobody, Step;
    var a, e, later := Actor(x), EventOf(net, x), Next(net, x);
    EventsAreAddressed(net, x);
    NextGrows(net, x);
    assert MembersFit(net, a);
    assert later[a].service == Step(net[a].service, e);
    StepKeepsMembers(Pubs(net), net[a].service, e);
    assert Pubs(later) == Pubs(net);
    assert MembersFit(later, a) <==> StopsClean(net, x);
    hide NodeStep, EventOf, Allowed, Grows, StopsClean;
    forall b | b in net && b != a
      ensures MembersFit(later, b)
    {
      assert MembersFit(net, b);
    }
  }

  /** Every event names the publish addresses of the peers it is about: greetings carry their sender's. */
  lemma EventsAreAddressed(net: Net, x: Action)
    requires Allowed(net, x) && Sound(net)
    ensures Addressed(Pubs(net), EventOf(net, x))
  {
    hide IdFrom, IdBytes, Sound;
    var e := EventOf(net, x);
    if e.Arrive? && e.frame.Hello? { HelloNamesSender(net, x); }
  }

  /** In every run, across stops that find nobody joining in their queue, whatever the network does with the greetings:
      every node's SUB socket, once it has caught up, is connected to exactly the peers it has a request socket for. */
  lemma {:induction false} MembersAgreeEverywhere(trace: seq<Net>, actions: seq<Action>, k: nat)
    requires IsRun(trace, actions) && k <= |actions| && Few(trace[k]) && OneAddressEach(Pubs(trace[0]))
    requires forall i :: 0 <= i < k ==> StopsClean(trace[i], actions[i])
    ensures Pubs(trace[k]) == Pubs(trace[0]) && forall a :: a in trace[k] ==> MembersFit(trace[k], a)
  {
    if k == 0 {
      FreshMembersFit(trace[0]);
    } else {
      hide MembersFit, Next, Allowed, Few, OneAddressEach, Fresh, StopsClean;
      FewEarlier(trace[k - 1], actions[k - 1]);
      MembersAgreeEverywhere(trace, actions, k - 1);
      RunKeepsSound(trace, actions, k - 1);
      NextKeepsMembers(trace[k - 1], actions[k - 1]);
    }
  }

  lemma FreshMembersFit(net: Net)
    requires Fresh(net)
    ensures forall a :: a in net ==> MembersFit(net, a)
  {
    forall a | a in net
      ensures MembersFit(net, a)
    {
      var s := net[a].service;
      assert s.sockets == map[] && s.members == [] && !s.alive;
    }
  }

  // ---- What the network makes possible ----

  /** When a node joins a peer it did not know, its greeting, delivered, gives the peer a socket back to it. */
  lemma GreetingConnectsBack(net: Net, a: Id, b: Id)
    requires Sound(net) && a in net && b in net && b !in net[a].service.sockets
    requires net[a].service.alive && net[b].service.alive
    ensures var n1 := Next(net, Local(a, Join(b, Rep(net, b), Pub(net, b))));
            && b in n1[a].service.sockets
            && Allowed(n1, Deliver(a, |net[a].service.wire|, b))
            && a in Next(n1, Deliver(a, |net[a].service.wire|, b))[b].service.sockets
  {
    hide IdBytes, IdFrom, SoundReplies, SoundWire, SoundFutures;
    IdRoundTrip(a);
    var join := Join(b, Rep(net, b), Pub(net, b));
    var n1 := Next(net, Local(a, join));
    StepEmits(net[a].service, join);
    assert n1[a].service.wire[|net[a].service.wire|]
        == Packet(Rep(net, b), Frame.Hello(IdBytes(a), Rep(net, a), net[a].service.self.pubAddr));
  }

  /** A request of a to b can be sent, delivered, answered and delivered back, and the answer is then the value of the
      request's future. */
  ghost predicate AnswerComesBack(net: Net, a: Id, b: Id, msg: Msg, answer: Msg)
    requires a in net && |net[a].service.futures| < TWO64
  {
    var k, i := |net[a].service.futures|, |net[a].service.wire|;
    var sent := Next(net, Local(a, Send(b, msg)));
    && Allowed(sent, Deliver(a, i, b))
    && var handed := Next(sent, Deliver(a, i, b));
       var answer' := Local(b, Answer(ExtId(a, k), answer));
       && Allowed(handed, answer')
       && var answered, j := Next(handed, answer'), |handed[b].service.wire|;
          && Allowed(answered, Deliver(b, j, a))
          && var done := Next(answered, Deliver(b, j, a));
             a in done && k < |done[a].service.futures| && done[a].service.futures[k] == Value(answer)
  }

  /** Between connected nodes (or from a node to itself) a request can always be answered: sent, delivered, answered and
      delivered back, the answer is the value of the request's future. */
  lemma RequestCanBeAnswered(net: Net, a: Id, b: Id, msg: Msg, answer: Msg)
    requires Sound(net) && a in net && b in net && |net[a].service.futures| < TWO64
    requires net[a].service.alive && net[b].service.alive
    requires b in net[a].service.sockets && a in net[b].service.sockets
    ensures AnswerComesBack(net, a, b, msg, answer)
  {
    hide Step, NodeStep, Next, Conserved, IdBytes, SoundReplies, SoundWire, Answered;
    var k, i := |net[a].service.futures|, |net[a].service.wire|;
    var s, t := net[a].service, net[b].service;
    assert Conserved(s) && s.sockets[b] == Rep(net, b) && t.sockets[a] == Rep(net, a) && s.self.id == a;
    hide Sound;
    SendOnWire(s, b, msg);
    LocalStep(net, a, Send(b, msg));
    var sent := Next(net, Local(a, Send(b, msg)));
    AnswerOnWire(sent[b].service, a, k, msg, answer);
    DeliverStep(sent, a, i, b);
    var handed := Next(sent, Deliver(a, i, b));
    LocalStep(handed, b, Answer(ExtId(a, k), answer));
    var answered := Next(handed, Local(b, Answer(ExtId(a, k), answer)));
    DeliverStep(answered, b, |handed[b].service.wire|, a);
    ReplySettles(answered[a].service, k, answer);
  }

  lemma LocalStep(net: Net, a: Id, e: Event)
    requires Allowed(net, Local(a, e))
    ensures var r := Next(net, Local(a, e));
            r.Keys == net.Keys && r[a].service == Step(net[a].service, e) && forall c :: c in net && c != a ==> r[c] == net[c]
  {
    hide Step;
  }

  lemma DeliverStep(net: Net, from: Id, i: nat, to: Id)
    requires Allowed(net, Deliver(from, i, to))
    ensures var r := Next(net, Deliver(from, i, to));
            && r.Keys == net.Keys && (forall c :: c in net && c != to ==> r[c] == net[c])
            && r[to].service == Step(net[to].service, Arrive(net[from].service.wire[i].frame))
  {
    hide Step;
  }

  lemma ReplySettles(s: State, k: U64, answer: Msg)
    requires s.alive && k in s.outstanding && s.outstanding[k] < |s.futures|
    ensures var r := Step(s, Arrive(Reply(k, answer)));
            |r.futures| == |s.futures| && r.futures[s.outstanding[k]] == Value(answer)
  {
  }

  lemma SendOnWire(s: State, b: Id, msg: Msg)
    requires Conserved(s) && s.alive && b in s.sockets && |s.futures| < TWO64
    ensures var r := Step(s, Send(b, msg));
            && r.wire == s.wire + [Packet(s.sockets[b], Request(|s.futures|, IdBytes(s.self.id), msg))]
            && r.alive && r.self == s.self && r.sockets == s.sockets && Conserved(r)
            && |r.futures| == |s.futures| + 1 && r.futures[|s.futures|] == Pending
            && |s.futures| in r.outstanding && r.outstanding[|s.futures|] == |s.futures|
  {
    StepConserves(s, Send(b, msg));
    NumbersAreFresh(s, b, msg);
    hide IdBytes, Paired;
  }

  lemma AnswerOnWire(t: State, a: Id, n: U64, msg: Msg, answer: Msg)
    requires t.alive && a in t.sockets
    ensures var t1 := Step(t, Arrive(Request(n, IdBytes(a), msg)));
            var t2 := Step(t1, Answer(ExtId(a, n), answer));
            && t1.wire == t.wire && t2.wire == t.wire + [Packet(t.sockets[a], Reply(n, answer))] && t2.self == t.self
            && t2.alive && t2.futures == t.futures && t2.outstanding == t.outstanding
  {
    IdRoundTrip(a);
    hide IdBytes, IdFrom;
  }
}
