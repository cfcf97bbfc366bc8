/** The messaging service of one node as a state machine on values: request sockets, promises, pending replies, and the
    two change queues with their notify tokens. */
module Service {
  import opened Types
  import Wire

  type Topic = seq<Byte>

  /** A request received from a peer: the peer and the number it gave the request. */
  datatype ExtId = ExtId(sender: Id, reqId: U64)

  /** The frames between nodes. Senders travel as serialized SenderId messages. */
  datatype Frame =
    | Request(reqId: U64, sender: seq<Byte>, msg: Msg)
    | Reply(reqId: U64, msg: Msg)
    | Hello(sender: seq<Byte>, repAddr: Addr, pubAddr: Addr)

  datatype Packet = Packet(to: Addr, frame: Frame)

  /** The future of a request. Abandoned is a broken promise: cancelled, disabled or stopped. */
  datatype Future = Pending | Value(msg: Msg) | TargetUnknown | Abandoned

  datatype Token = SubscriptionChange | MembershipChange | Shutdown

  datatype Change<T> = Change(what: T, add: bool)

  datatype Self = Self(id: Id, repAddr: Addr, pubAddr: Addr)

  datatype State = State(
    self: Self,
    alive: bool,
    /** The request sockets and the address each is connected to. */
    sockets: map<Id, Addr>,
    /** The futures of all requests ever issued, and which of them each outstanding promise settles. */
    futures: seq<Future>,
    outstanding: map<U64, nat>,
    nextId: U64,
    /** The requests that wait for a reply of the own module. */
    replies: map<ExtId, Id>,
    /** What was sent, and the requests handed to the core. */
    wire: seq<Packet>,
    received: seq<(ExtId, Msg)>,
    /** Changes for the poller thread, its tokens, and what it has applied to the SUB socket. */
    members: seq<Change<Addr>>,
    subscriptions: seq<Change<Topic>>,
    tokens: seq<Token>,
    connected: set<Addr>,
    prefixes: multiset<Topic>)

  datatype Event =
    | Start | Stop | Disable
    | Join(id: Id, repAddr: Addr, pubAddr: Addr)
    | Leave(id: Id, pubAddr: Addr)
    | Subscribe(topic: Topic) | Unsubscribe(topic: Topic)
    | Send(target: Id, msg: Msg)
    | Answer(ext: ExtId, msg: Msg)
    | Cancel(reqId: U64)
    | Arrive(frame: Frame)
    | Notify

  // ---- Identities on the wire ----

  function IdBytes(id: Id): seq<Byte> {
    Wire.SerializeSender(Wire.SenderId(Some(id.typeId), Some(id.instanceId)))
  }

  /** The identity in whatever fields were read; absent fields read as zero. */
  function IdFrom(bytes: seq<Byte>): Id {
    var m := Wire.ParseSender(Wire.EMPTY_SENDER, bytes).msg;
    Id(if m.typeId.Some? then m.typeId.value % TWO16 else 0, if m.instanceId.Some? then m.instanceId.value else 0)
  }

  lemma IdRoundTrip(id: Id)
    ensures IdFrom(IdBytes(id)) == id
  {
    hide Wire.ParseSender, Wire.SerializeSender;
    Wire.SenderRoundTrip(Wire.EMPTY_SENDER, Wire.SenderId(Some(id.typeId), Some(id.instanceId)));
  }

  // ---- Steps ----

  function Initial(self: Self): State {
    State(self, false, map[], [], map[], 0, map[], [], [], [], [], [], {}, multiset{})
  }

  /** Every promise still held is dropped. */
  function AbandonAll(futures: seq<Future>): (r: seq<Future>)
    ensures |r| == |futures|
  {
    seq(|futures|, i requires 0 <= i < |futures| => if futures[i] == Pending then Abandoned else futures[i])
  }

  function Connect(s: State, id: Id, repAddr: Addr, pubAddr: Addr): State {
    if id in s.sockets then s
    else s.(sockets := s.sockets[id := repAddr],
            wire := s.wire + [Packet(repAddr, Hello(IdBytes(s.self.id), s.self.repAddr, s.self.pubAddr))],
            members := s.members + [Change(pubAddr, true)],
            tokens := s.tokens + [MembershipChange])
  }

  function Disconnect(s: State, id: Id, pubAddr: Addr): State {
    if id !in s.sockets then s
    else s.(sockets := s.sockets - {id},
            members := s.members + [Change(pubAddr, false)],
            tokens := s.tokens + [MembershipChange])
  }

  /** The outstanding promise under a number is settled. */
  function Settle(s: State, reqId: U64, f: Future): (r: State)
    ensures |r.futures| == |s.futures|
  {
    if reqId in s.outstanding && s.outstanding[reqId] < |s.futures| then
      s.(futures := s.futures[s.outstanding[reqId] := f], outstanding := s.outstanding - {reqId})
    else s
  }

  /** The promise a request id stands for is dropped. */
  function Abandon(s: State, reqId: U64): State {
    Settle(s, reqId, Abandoned)
  }

  function SendRequest(s: State, target: Id, msg: Msg): State {
    var id := s.nextId;
    var r := Abandon(s, id).(nextId := (id + 1) % TWO64);
    if target in s.sockets then
      r.(futures := r.futures + [Pending], outstanding := r.outstanding[id := |r.futures|],
         wire := s.wire + [Packet(s.sockets[target], Request(id, IdBytes(s.self.id), msg))])
    else
      r.(futures := r.futures + [TargetUnknown])
  }

  function SendReply(s: State, ext: ExtId, msg: Msg): State {
    if ext !in s.replies then s
    else
      var addr := s.replies[ext];
      s.(replies := s.replies - {ext},
         wire := if addr in s.sockets then s.wire + [Packet(s.sockets[addr], Reply(ext.reqId, msg))] else s.wire)
  }

  function Receive(s: State, f: Frame): State {
    match f
    case Request(reqId, sender, msg) =>
      var ext := ExtId(IdFrom(sender), reqId);
      s.(replies := s.replies[ext := ext.sender], received := s.received + [(ext, msg)])
    case Reply(reqId, msg) => Settle(s, reqId, Value(msg))
    case Hello(sender, repAddr, pubAddr) => Connect(s, IdFrom(sender), repAddr, pubAddr)
  }

  function ApplyMember(connected: set<Addr>, c: Change<Addr>): set<Addr> {
    if c.add then connected + {c.what} else connected - {c.what}
  }

  function ApplySubscription(prefixes: multiset<Topic>, c: Change<Topic>): multiset<Topic> {
    if c.add then prefixes + multiset{c.what} else prefixes - multiset{c.what}
  }

  /** The poller takes one token and applies at most one change. */
  function HandleNotify(s: State): State {
    if s.tokens == [] then s
    else
      var r := s.(tokens := s.tokens[1..]);
      match s.tokens[0]
      case SubscriptionChange =>
        if s.subscriptions == [] then r
        else r.(subscriptions := s.subscriptions[1..], prefixes := ApplySubscription(s.prefixes, s.subscriptions[0]))
      case MembershipChange =>
        if s.members == [] then r
        else r.(members := s.members[1..], connected := ApplyMember(s.connected, s.members[0]))
      case Shutdown => r
  }

  /** Calls on a service that is not alive fail and change nothing. */
  function Step(s: State, e: Event): State {
    if e == Start then (if s.alive then s else s.(alive := true, tokens := [], connected := {}, prefixes := multiset{}))
    else if !s.alive then s
    else match e
      case Start => s
      case Stop => s.(alive := false, sockets := map[], futures := AbandonAll(s.futures), outstanding := map[],
                      tokens := s.tokens + [Shutdown])
      case Disable => s.(futures := AbandonAll(s.futures), outstanding := map[], replies := map[])
      case Join(id, repAddr, pubAddr) => Connect(s, id, repAddr, pubAddr)
      case Leave(id, pubAddr) => Disconnect(s, id, pubAddr)
      case Subscribe(topic) =>
        s.(subscriptions := s.subscriptions + [Change(topic, true)], tokens := s.tokens + [SubscriptionChange])
      case Unsubscribe(topic) =>
        s.(subscriptions := s.subscriptions + [Change(topic, false)], tokens := s.tokens + [SubscriptionChange])
      case Send(target, msg) => SendRequest(s, target, msg)
      case Answer(ext, msg) => SendReply(s, ext, msg)
      case Cancel(reqId) => Abandon(s, reqId)
      case Arrive(frame) => Receive(s, frame)
      case Notify => HandleNotify(s)
  }

  function Run(s: State, events: seq<Event>): State {
    if events == [] then s else Step(Run(s, events[..|events| - 1]), events[|events| - 1])
  }

  lemma RunAppend(s: State, events: seq<Event>, e: Event)
    ensures Run(s, events + [e]) == Step(Run(s, events), e)
  {
    assert (events + [e])[..|events|] == events;
  }

  // ---- Requests are conserved ----

  /** The number the request at this position was issued with. */
  function NumberOf(k: nat): U64 {
    k % TWO64
  }

  /** The numbers of the first n requests. */
  function Numbers(n: nat): (r: seq<U64>)
    ensures |r| == n && forall k :: 0 <= k < n ==> r[k] == NumberOf(k)
  {
    seq(n, k requires 0 <= k < n => NumberOf(k))
  }

  /** The outstanding promises are exactly the pending futures, each under its own number. */
  ghost predicate Paired(futures: seq<Future>, numbers: seq<U64>, outstanding: map<U64, nat>) {
    && |numbers| == |futures|
    && (forall id :: id in outstanding ==>
          outstanding[id] < |futures| && futures[outstanding[id]] == Pending && numbers[outstanding[id]] == id)
    && forall k :: 0 <= k < |futures| && futures[k] == Pending ==>
         numbers[k] in outstanding && outstanding[numbers[k]] == k
  }

  ghost predicate Conserved(s: State) {
    s.nextId == NumberOf(|s.futures|) && Paired(s.futures, Numbers(|s.futures|), s.outstanding)
  }

  lemma SettlePairs(s: State, numbers: seq<U64>, id: U64, f: Future)
    requires Paired(s.futures, numbers, s.outstanding) && f != Pending
    ensures Paired(Settle(s, id, f).futures, numbers, Settle(s, id, f).outstanding)
    ensures id !in Settle(s, id, f).outstanding && |Settle(s, id, f).futures| == |s.futures|
  {
  }

  /** What settling the promise under a number does to the future at a position. */
  lemma SettleAt(s: State, numbers: seq<U64>, id: U64, f: Future, k: nat)
    requires Paired(s.futures, numbers, s.outstanding) && k < |s.futures|
    ensures |Settle(s, id, f).futures| == |s.futures|
    ensures Settle(s, id, f).futures[k] == if s.futures[k] == Pending && numbers[k] == id then f else s.futures[k]
  {
  }

  /** Settling touches nothing else. */
  lemma SettleFrame(s: State, id: U64, f: Future)
    ensures Settle(s, id, f) == s.(futures := Settle(s, id, f).futures, outstanding := Settle(s, id, f).outstanding)
  {
  }

  lemma RegisterPairs(futures: seq<Future>, numbers: seq<U64>, outstanding: map<U64, nat>, id: U64)
    requires Paired(futures, numbers, outstanding) && id !in outstanding
    ensures Paired(futures + [Pending], numbers + [id], outstanding[id := |futures|])
  {
    forall k | 0 <= k < |futures| + 1 && (futures + [Pending])[k] == Pending
      ensures (numbers + [id])[k] in outstanding[id := |futures|] && outstanding[id := |futures|][(numbers + [id])[k]] == k
    {
      assert k < |futures| ==> futures[k] == Pending;
    }
  }

  lemma AppendSettledPairs(futures: seq<Future>, numbers: seq<U64>, outstanding: map<U64, nat>, id: U64, f: Future)
    requires Paired(futures, numbers, outstanding) && f != Pending
    ensures Paired(futures + [f], numbers + [id], outstanding)
  {
  }

  lemma AbandonAllPairs(futures: seq<Future>, numbers: seq<U64>, outstanding: map<U64, nat>)
    requires Paired(futures, numbers, outstanding)
    ensures Paired(AbandonAll(futures), numbers, map[])
  {
  }

  lemma FrontPairs(futures: seq<Future>, numbers: seq<U64>, outstanding: map<U64, nat>)
    requires Paired(futures, numbers, outstanding) && futures != []
    ensures var n := |futures| - 1;
            if futures[n] == Pending then
              numbers[n] in outstanding && Paired(futures[..n], numbers[..n], outstanding - {numbers[n]})
            else Paired(futures[..n], numbers[..n], outstanding)
  {
  }

  lemma StepConserves(s: State, e: Event)
    requires Conserved(s)
    ensures Conserved(Step(s, e))
  {
    hide NumberOf, Numbers, Paired, Settle, IdFrom, IdBytes, SendRequest;
    match e {
      case Send(target, msg) => SendConserves(s, target, msg);
      case Cancel(reqId) => AbandonConserves(s, reqId);
      case Arrive(f) => if f.Reply? { ReplyConserves(s, f.reqId, f.msg); }
      case Stop => AbandonAllPairs(s.futures, Numbers(|s.futures|), s.outstanding);
      case Disable => AbandonAllPairs(s.futures, Numbers(|s.futures|), s.outstanding);
      case _ =>
    }
  }

  lemma AbandonConserves(s: State, reqId: U64)
    requires Conserved(s)
    ensures Conserved(Abandon(s, reqId)) && reqId !in Abandon(s, reqId).outstanding
    ensures |Abandon(s, reqId).futures| == |s.futures|
  {
    hide NumberOf, Numbers, Paired, Settle;
    SettlePairs(s, Numbers(|s.futures|), reqId, Abandoned);
    SettleFrame(s, reqId, Abandoned);
  }

  lemma ReplyConserves(s: State, reqId: U64, msg: Msg)
    requires Conserved(s)
    ensures Conserved(Receive(s, Reply(reqId, msg)))
  {
    hide NumberOf, Numbers, Paired, Settle;
    SettlePairs(s, Numbers(|s.futures|), reqId, Value(msg));
    SettleFrame(s, reqId, Value(msg));
  }

  lemma SendConserves(s: State, target: Id, msg: Msg)
    requires Conserved(s)
    ensures Conserved(SendRequest(s, target, msg))
  {
    hide Abandon, IdBytes, Paired, NumberOf;
    AbandonConserves(s, s.nextId);
    AbandonFrame(s, s.nextId);
    var r := Abandon(s, s.nextId);
    var n := |s.futures|;
    NextNumber(n);
    assert Numbers(n + 1) == Numbers(n) + [NumberOf(n)];
    RegisterPairs(r.futures, Numbers(n), r.outstanding, s.nextId);
    AppendSettledPairs(r.futures, Numbers(n), r.outstanding, s.nextId, TargetUnknown);
  }

  lemma AbandonFrame(s: State, id: U64)
    ensures Abandon(s, id) == s.(futures := Abandon(s, id).futures, outstanding := Abandon(s, id).outstanding)
  {
  }

  lemma NextNumber(n: nat)
    ensures (NumberOf(n) + 1) % TWO64 == NumberOf(n + 1)
  {
  }

  lemma {:induction false} RunConserves(self: Self, events: seq<Event>)
    ensures Conserved(Run(Initial(self), events))
  {
    if events != [] {
      RunConserves(self, events[..|events| - 1]);
      StepConserves(Run(Initial(self), events[..|events| - 1]), events[|events| - 1]);
    }
  }

  /** How many of the requests are in this state. */
  function Count(futures: seq<Future>, f: Future): nat {
    if futures == [] then 0
    else Count(futures[..|futures| - 1], f) + if futures[|futures| - 1] == f then 1 else 0
  }

  function CountAnswered(futures: seq<Future>): nat {
    if futures == [] then 0
    else CountAnswered(futures[..|futures| - 1]) + if futures[|futures| - 1].Value? then 1 else 0
  }

  lemma {:induction false} CountsAddUp(futures: seq<Future>)
    ensures |futures| == Count(futures, Pending) + CountAnswered(futures) + Count(futures, TargetUnknown)
                         + Count(futures, Abandoned)
  {
    if futures != [] {
      CountsAddUp(futures[..|futures| - 1]);
    }
  }

  /** There are as many outstanding promises as pending futures. */
  lemma {:induction false} PendingCount(futures: seq<Future>, numbers: seq<U64>, outstanding: map<U64, nat>)
    requires Paired(futures, numbers, outstanding)
    ensures |outstanding| == Count(futures, Pending)
  {
    if futures == [] {
      assert outstanding == map[];
    } else {
      var n := |futures| - 1;
      FrontPairs(futures, numbers, outstanding);
      assert |numbers| == |futures|;
      hide Paired;
      if futures[n] == Pending {
        var rest := outstanding - {numbers[n]};
        assert outstanding.Keys == rest.Keys + {numbers[n]};
        PendingCount(futures[..n], numbers[..n], rest);
      } else {
        PendingCount(futures[..n], numbers[..n], outstanding);
      }
    }
  }

  /** In every run the requests issued are the outstanding, the answered, the failed and the abandoned ones. */
  lemma RequestsPartition(self: Self, events: seq<Event>)
    ensures var s := Run(Initial(self), events);
            |s.futures| == |s.outstanding| + CountAnswered(s.futures) + Count(s.futures, TargetUnknown)
                           + Count(s.futures, Abandoned)
  {
    RunConserves(self, events);
    var s := Run(Initial(self), events);
    CountsAddUp(s.futures);
    PendingCount(s.futures, Numbers(|s.futures|), s.outstanding);
  }

  /** A step settles a future at most once: what was settled stays. A value comes from a reply with the number of an
      outstanding request, and an unknown target only from sending. */
  lemma FuturesSettleOnce(s: State, e: Event, k: nat)
    requires Conserved(s) && k < |Step(s, e).futures|
    ensures |s.futures| <= |Step(s, e).futures| <= |s.futures| + 1
    ensures k < |s.futures| && s.futures[k] != Pending ==> Step(s, e).futures[k] == s.futures[k]
    ensures k < |s.futures| && Step(s, e).futures[k].Value? && s.futures[k] == Pending ==>
              e == Arrive(Reply(NumberOf(k), Step(s, e).futures[k].msg)) && s.alive
    ensures k < |s.futures| && Step(s, e).futures[k] == TargetUnknown ==> s.futures[k] == TargetUnknown
    ensures k == |s.futures| ==>
              e.Send? && s.alive && Step(s, e).futures[k] == if e.target in s.sockets then Pending else TargetUnknown
  {
    hide IdFrom, IdBytes, Settle, Paired, NumberOf;
    match e {
      case Send(target, msg) =>
        AbandonChanges(s, s.nextId, k);
        AbandonFrame(s, s.nextId);
        hide Abandon;
      case Cancel(reqId) => AbandonChanges(s, reqId, k);
      case Arrive(f) => if f.Reply? && k < |s.futures| { ReplyChanges(s, f.reqId, f.msg, k); }
      case _ =>
    }
  }

  lemma ReplyChanges(s: State, reqId: U64, msg: Msg, k: nat)
    requires Conserved(s) && k < |s.futures|
    ensures Settle(s, reqId, Value(msg)).futures[k] ==
              if s.futures[k] == Pending && NumberOf(k) == reqId then Value(msg) else s.futures[k]
  {
    hide NumberOf, Settle, Paired;
    SettleAt(s, Numbers(|s.futures|), reqId, Value(msg), k);
    assert Numbers(|s.futures|)[k] == NumberOf(k);
  }

  lemma AbandonChanges(s: State, reqId: U64, k: nat)
    requires Conserved(s)
    ensures |Abandon(s, reqId).futures| == |s.futures| && Abandon(s, reqId).sockets == s.sockets
    ensures k < |s.futures| ==> Abandon(s, reqId).futures[k] == s.futures[k]
                                || (s.futures[k] == Pending && Abandon(s, reqId).futures[k] == Abandoned)
  {
  }

  /** A reply to a number that is not outstanding (made up, or of an earlier epoch) changes nothing. */
  lemma UnknownReplyIsIgnored(s: State, reqId: U64, msg: Msg)
    requires reqId !in s.outstanding
    ensures Step(s, Arrive(Reply(reqId, msg))) == s
  {
  }

  /** With at most 2^64 requests, the number of a settled request is never outstanding again: a late or repeated reply to
      it changes nothing. */
  lemma LateReplyIsIgnored(s: State, k: nat, msg: Msg)
    requires Conserved(s) && k < |s.futures| <= TWO64 && s.futures[k] != Pending
    ensures NumberOf(k) !in s.outstanding && Step(s, Arrive(Reply(NumberOf(k), msg))) == s
  {
    hide Step;
    assert Numbers(|s.futures|)[k] == k;
    UnknownReplyIsIgnored(s, NumberOf(k), msg);
  }

  /** Numbers are not reused below 2^64 requests: the number of an outstanding request is its position. */
  lemma NumbersAreFresh(s: State, target: Id, msg: Msg)
    requires Conserved(s) && |s.futures| < TWO64
    ensures s.nextId == |s.futures| && s.nextId !in s.outstanding
    ensures Abandon(s, s.nextId) == s
  {
  }

  /** In every run a future that holds a value got it from a reply frame with the request's number. */
  lemma {:induction false} ValueComesFromReply(self: Self, events: seq<Event>, k: nat)
    requires k < |Run(Initial(self), events).futures| && Run(Initial(self), events).futures[k].Value?
    ensures exists j :: 0 <= j < |events|
                        && events[j] == Arrive(Reply(NumberOf(k), Run(Initial(self), events).futures[k].msg))
                        && k < |Run(Initial(self), events[..j]).futures|
                        && Run(Initial(self), events[..j]).futures[k] == Pending
  {
    hide Step, Conserved;
    if events != [] {
      var n := |events| - 1;
      var before, e := events[..n], events[n];
      var s := Run(Initial(self), before);
      RunConserves(self, before);
      FuturesSettleOnce(s, e, k);
      if s.futures[k].Value? {
        ValueComesFromReply(self, before, k);
        var j :| 0 <= j < n && before[j] == Arrive(Reply(NumberOf(k), s.futures[k].msg))
                 && k < |Run(Initial(self), before[..j]).futures|
                 && Run(Initial(self), before[..j]).futures[k] == Pending;
        assert before[..j] == events[..j];
      }
    }
  }

  // ---- Replies ----

  predicate Requests(e: Event, ext: ExtId) {
    e.Arrive? && e.frame.Request? && ExtId(IdFrom(e.frame.sender), e.frame.reqId) == ext
  }

  /** The event puts a reply frame for the request on the wire. */
  predicate Replies(s: State, e: Event, ext: ExtId) {
    s.alive && e.Answer? && e.ext == ext && ext in s.replies && s.replies[ext] in s.sockets
  }

  /** Requests received with this identity, and replies sent for it, since the service was last disabled. */
  function RequestCount(s: State, events: seq<Event>, ext: ExtId): nat {
    if events == [] then 0
    else
      var before, e := events[..|events| - 1], events[|events| - 1];
      if !Run(s, before).alive then RequestCount(s, before, ext)
      else if e == Disable then 0
      else RequestCount(s, before, ext) + if Requests(e, ext) then 1 else 0
  }

  function ReplyCount(s: State, events: seq<Event>, ext: ExtId): nat {
    if events == [] then 0
    else
      var before, e := events[..|events| - 1], events[|events| - 1];
      if Run(s, before).alive && e == Disable then 0
      else ReplyCount(s, before, ext) + if Replies(Run(s, before), e, ext) then 1 else 0
  }

  /** A waiting request is kept under the identity of its sender. */
  ghost predicate RepliesToSender(s: State) {
    forall ext :: ext in s.replies ==> s.replies[ext] == ext.sender
  }

  lemma StepKeepsSenders(s: State, e: Event)
    requires RepliesToSender(s)
    ensures RepliesToSender(Step(s, e))
  {
    hide IdFrom, IdBytes, Settle, ApplyMember, ApplySubscription;
    match e {
      case Send(_, _) => SettleFrame(s, s.nextId, Abandoned);
      case Cancel(reqId) => SettleFrame(s, reqId, Abandoned);
      case Arrive(f) => if f.Reply? { SettleFrame(s, f.reqId, Value(f.msg)); }
      case _ =>
    }
  }

  lemma {:induction false} RunKeepsSenders(self: Self, events: seq<Event>)
    ensures RepliesToSender(Run(Initial(self), events))
  {
    if events != [] {
      RunKeepsSenders(self, events[..|events| - 1]);
      StepKeepsSenders(Run(Initial(self), events[..|events| - 1]), events[|events| - 1]);
    }
  }

  /** Frames only leave; a reply frame leaves exactly when a waiting request is answered, and it goes to the socket of
      that request's sender. */
  lemma ReplyGoesToSender(s: State, e: Event)
    requires RepliesToSender(s)
    ensures s.wire <= Step(s, e).wire && |Step(s, e).wire| <= |s.wire| + 1
    ensures |Step(s, e).wire| > |s.wire| && Step(s, e).wire[|s.wire|].frame.Reply?
       <==> e.Answer? && Replies(s, e, e.ext)
    ensures e.Answer? && Replies(s, e, e.ext) ==>
              Step(s, e).wire[|s.wire|] == Packet(s.sockets[e.ext.sender], Reply(e.ext.reqId, e.msg))
  {
    hide IdFrom, IdBytes, Settle;
    match e {
      case Send(_, _) => SettleFrame(s, s.nextId, Abandoned);
      case Cancel(reqId) => SettleFrame(s, reqId, Abandoned);
      case Arrive(f) => if f.Reply? { SettleFrame(s, f.reqId, Value(f.msg)); }
      case _ =>
    }
  }

  lemma WaitingRequests(s: State, e: Event, ext: ExtId)
    ensures s.alive && e == Disable ==> ext !in Step(s, e).replies
    ensures Replies(s, e, ext) ==> ext in s.replies && ext !in Step(s, e).replies
    ensures ext in Step(s, e).replies && !(s.alive && Requests(e, ext)) ==> ext in s.replies
  {
  }

  /** In every run, for every identity: since the last disable, the replies sent, and one more if a request still waits,
      are at most the requests received. So none is sent for a request received before it. */
  lemma {:induction false} RepliesNeverExceedRequests(s: State, events: seq<Event>, ext: ExtId)
    requires s.replies == map[]
    ensures ReplyCount(s, events, ext) + (if ext in Run(s, events).replies then 1 else 0) <= RequestCount(s, events, ext)
  {
    if events != [] {
      var before, e := events[..|events| - 1], events[|events| - 1];
      RepliesNeverExceedRequests(s, before, ext);
      WaitingRequests(Run(s, before), e, ext);
      hide Step;
    }
  }

  // ---- Tokens and queues ----

  function CountTokens(tokens: seq<Token>, t: Token): nat {
    if tokens == [] then 0
    else CountTokens(tokens[1..], t) + if tokens[0] == t then 1 else 0
  }

  lemma {:induction false} CountTokensAppend(tokens: seq<Token>, x: Token, t: Token)
    ensures CountTokens(tokens + [x], t) == CountTokens(tokens, t) + if x == t then 1 else 0
  {
    if tokens != [] {
      CountTokensAppend(tokens[1..], x, t);
      assert (tokens + [x])[1..] == tokens[1..] + [x];
    }
  }

  /** One token per queued change. */
  ghost predicate TokensMatch(s: State) {
    && CountTokens(s.tokens, MembershipChange) == |s.members|
    && CountTokens(s.tokens, SubscriptionChange) == |s.subscriptions|
  }

  /** Sending leaves the queues alone. */
  lemma FramedBySending(s: State, e: Event)
    ensures e.Send? ==> SendRequest(s, e.target, e.msg) == s.(futures := SendRequest(s, e.target, e.msg).futures,
                                                            outstanding := SendRequest(s, e.target, e.msg).outstanding,
                                                            nextId := SendRequest(s, e.target, e.msg).nextId,
                                                            wire := SendRequest(s, e.target, e.msg).wire)
    ensures e.Answer? ==> SendReply(s, e.ext, e.msg) == s.(replies := SendReply(s, e.ext, e.msg).replies,
                                                           wire := SendReply(s, e.ext, e.msg).wire)
  {
  }

  /** While the service is not started anew, every queued change has its token, so a taken token always finds its change. */
  lemma StepKeepsTokens(s: State, e: Event)
    requires TokensMatch(s) && (e == Start ==> s.alive)
    ensures TokensMatch(Step(s, e))
    ensures e == Notify && s.alive && s.tokens != [] ==>
              && (s.tokens[0] == MembershipChange ==> s.members != [])
              && (s.tokens[0] == SubscriptionChange ==> s.subscriptions != [])
  {
    hide IdFrom, IdBytes, SendRequest, SendReply;
    FramedBySending(s, e);
    CountTokensAppend(s.tokens, MembershipChange, MembershipChange);
    CountTokensAppend(s.tokens, MembershipChange, SubscriptionChange);
    CountTokensAppend(s.tokens, SubscriptionChange, MembershipChange);
    CountTokensAppend(s.tokens, SubscriptionChange, SubscriptionChange);
    CountTokensAppend(s.tokens, Shutdown, MembershipChange);
    CountTokensAppend(s.tokens, Shutdown, SubscriptionChange);
  }

  /** Stopping empties neither change queue: after the next start the tokens match exactly when both were drained. */
  lemma RestartKeepsTokensIffDrained(s: State)
    requires s.alive
    ensures TokensMatch(Step(Step(s, Stop), Start)) <==> s.members == [] && s.subscriptions == []
  {
    assert CountTokens([], MembershipChange) == 0 && CountTokens([], SubscriptionChange) == 0;
  }

  /** A subscription queued at the stop is such a case. */
  lemma StopLeavesQueue(self: Self, topic: Topic)
    ensures !TokensMatch(Run(Initial(self), [Start, Subscribe(topic), Stop, Start]))
  {
    var s0 := Initial(self);
    var s1 := Step(s0, Start);
    var s2 := Step(s1, Subscribe(topic));
    assert s2.alive && s2.subscriptions == [Change(topic, true)];
    RestartKeepsTokensIffDrained(s2);
    hide Step, TokensMatch;
    assert Run(s0, []) == s0;
    hide Run;
    RunAppend(s0, [], Start);
    assert [] + [Start] == [Start];
    RunAppend(s0, [Start], Subscribe(topic));
    assert [Start] + [Subscribe(topic)] == [Start, Subscribe(topic)];
    RunAppend(s0, [Start, Subscribe(topic)], Stop);
    assert [Start, Subscribe(topic)] + [Stop] == [Start, Subscribe(topic), Stop];
    RunAppend(s0, [Start, Subscribe(topic), Stop], Start);
    assert [Start, Subscribe(topic), Stop] + [Start] == [Start, Subscribe(topic), Stop, Start];
  }

  // ---- Changes without a token ----

  /** The queued subscription changes that have no token. */
  function Untokened(s: State): int {
    |s.subscriptions| - CountTokens(s.tokens, SubscriptionChange)
  }

  /** Calls within an epoch: the service is not stopped. */
  predicate WithinEpoch(events: seq<Event>) {
    forall i :: 0 <= i < |events| ==> events[i] != Stop
  }

  /** Within an epoch a change without a token stays without one, and no other is left without. */
  lemma StepKeepsUntokened(s: State, e: Event)
    requires s.alive && e != Stop && Untokened(s) >= 0
    ensures Step(s, e).alive && Untokened(Step(s, e)) == Untokened(s)
  {
    hide IdFrom, IdBytes, SendRequest, SendReply, Settle, ApplyMember, ApplySubscription;
    FramedBySending(s, e);
    CountTokensAppend(s.tokens, MembershipChange, SubscriptionChange);
    CountTokensAppend(s.tokens, SubscriptionChange, SubscriptionChange);
    match e {
      case Cancel(reqId) => SettleFrame(s, reqId, Abandoned);
      case Arrive(f) => if f.Reply? { SettleFrame(s, f.reqId, Value(f.msg)); }
      case _ =>
    }
  }

  lemma {:induction false} RunKeepsUntokened(s: State, events: seq<Event>)
    requires s.alive && WithinEpoch(events) && Untokened(s) >= 0
    ensures Run(s, events).alive && Untokened(Run(s, events)) == Untokened(s)
  {
    hide Step, Untokened;
    if events != [] {
      var n := |events| - 1;
      RunKeepsUntokened(s, events[..n]);
      StepKeepsUntokened(Run(s, events[..n]), events[n]);
    }
  }

  function Notifies(n: nat): seq<Event> {
    seq(n, i requires 0 <= i < n => Notify)
  }

  lemma NotifyTakesOne(s: State)
    requires s.alive && s.tokens != []
    ensures Step(s, Notify).alive && Step(s, Notify).tokens == s.tokens[1..]
  {
    hide ApplyMember, ApplySubscription;
  }

  lemma {:induction false} NotifiesTake(s: State, n: nat)
    requires s.alive && n <= |s.tokens|
    ensures Run(s, Notifies(n)).alive && |Run(s, Notifies(n)).tokens| == |s.tokens| - n
  {
    hide Step;
    if n > 0 {
      NotifiesTake(s, n - 1);
      assert Notifies(n) == Notifies(n - 1) + [Notify];
      RunAppend(s, Notifies(n - 1), Notify);
      hide Run, Notifies;
      NotifyTakesOne(Run(s, Notifies(n - 1)));
    }
  }

  /** Within an epoch the SUB socket can catch up with the queue exactly when every queued change has its token. */
  lemma CatchesUpExactlyWhenTokened(s: State)
    requires s.alive && Untokened(s) >= 0
    ensures (exists events :: WithinEpoch(events) && Run(s, events).subscriptions == []) <==> Untokened(s) == 0
  {
    hide Step;
    if events :| WithinEpoch(events) && Run(s, events).subscriptions == [] {
      RunKeepsUntokened(s, events);
    }
    if Untokened(s) == 0 {
      var n := |s.tokens|;
      NotifiesTake(s, n);
      assert WithinEpoch(Notifies(n));
      RunKeepsUntokened(s, Notifies(n));
      hide Run, Notifies;
      assert CountTokens([], SubscriptionChange) == 0;
    }
  }

  /** After a stop and a start, at any moment of the new epoch: of the subscription changes at least as many are not applied as
      were queued at the stop, and the SUB socket can catch up exactly when none was. */
  lemma RestartCatchesUpIffDrained(s: State, events: seq<Event>)
    requires s.alive && WithinEpoch(events)
    ensures var r := Run(Step(Step(s, Stop), Start), events);
            && |r.subscriptions| >= |s.subscriptions|
            && ((exists later :: WithinEpoch(later) && Run(r, later).subscriptions == []) <==> s.subscriptions == [])
  {
    var start := Step(Step(s, Stop), Start);
    assert start.alive && start.tokens == [] && start.subscriptions == s.subscriptions;
    assert Untokened(start) == |s.subscriptions|;
    hide Step;
    RunKeepsUntokened(start, events);
    var r := Run(start, events);
    hide Run;
    CatchesUpExactlyWhenTokened(r);
  }

  /** The SUB connections once the queue is drained. */
  function DrainedMembers(connected: set<Addr>, q: seq<Change<Addr>>): set<Addr>
    decreases |q|
  {
    if q == [] then connected else DrainedMembers(ApplyMember(connected, q[0]), q[1..])
  }

  lemma {:induction false} DrainedMembersAppend(connected: set<Addr>, q: seq<Change<Addr>>, c: Change<Addr>)
    ensures DrainedMembers(connected, q + [c]) == ApplyMember(DrainedMembers(connected, q), c)
    decreases |q|
  {
    if q == [] {
      assert [] + [c] == [c] && [c][1..] == [];
    } else {
      DrainedMembersAppend(ApplyMember(connected, q[0]), q[1..], c);
      assert (q + [c])[1..] == q[1..] + [c];
    }
  }

  /** The SUB subscriptions once the queue is drained. */
  function DrainedPrefixes(prefixes: multiset<Topic>, q: seq<Change<Topic>>): multiset<Topic>
    decreases |q|
  {
    if q == [] then prefixes else DrainedPrefixes(ApplySubscription(prefixes, q[0]), q[1..])
  }

  lemma {:induction false} DrainedPrefixesAppend(prefixes: multiset<Topic>, q: seq<Change<Topic>>, c: Change<Topic>)
    ensures DrainedPrefixes(prefixes, q + [c]) == ApplySubscription(DrainedPrefixes(prefixes, q), c)
    decreases |q|
  {
    if q == [] {
      assert [] + [c] == [c] && [c][1..] == [];
    } else {
      DrainedPrefixesAppend(ApplySubscription(prefixes, q[0]), q[1..], c);
      assert (q + [c])[1..] == q[1..] + [c];
    }
  }

  /** The subscriptions to a topic in the queue, less those withdrawn in it. */
  function Net(q: seq<Change<Topic>>, t: Topic): int
    decreases |q|
  {
    if q == [] then 0 else (if q[0].what != t then 0 else if q[0].add then 1 else -1) + Net(q[1..], t)
  }

  /** No part at the end of the queue subscribes to the topic more often than it withdraws it. */
  predicate Withdrawn(q: seq<Change<Topic>>, t: Topic) {
    forall i :: 0 <= i <= |q| ==> Net(q[i..], t) <= 0
  }

  lemma {:induction false} DrainedTopic(prefixes: multiset<Topic>, q: seq<Change<Topic>>, t: Topic)
    ensures t !in DrainedPrefixes(prefixes, q) <==> prefixes[t] + Net(q, t) <= 0 && Withdrawn(q, t)
    decreases |q|
  {
    if q == [] {
      assert Withdrawn(q, t) by { assert q[0..] == []; }
    } else {
      DrainedTopic(ApplySubscription(prefixes, q[0]), q[1..], t);
      WithdrawnFront(q, t);
      hide Withdrawn, DrainedPrefixes;
      assert DrainedPrefixes(prefixes, q) == DrainedPrefixes(ApplySubscription(prefixes, q[0]), q[1..]) by {
        DrainFirst(prefixes, q);
      }
    }
  }

  lemma DrainFirst(prefixes: multiset<Topic>, q: seq<Change<Topic>>)
    requires q != []
    ensures DrainedPrefixes(prefixes, q) == DrainedPrefixes(ApplySubscription(prefixes, q[0]), q[1..])
  {
  }

  lemma WithdrawnFront(q: seq<Change<Topic>>, t: Topic)
    requires q != []
    ensures Withdrawn(q, t) <==> Net(q, t) <= 0 && Withdrawn(q[1..], t)
    ensures Withdrawn(q, t) ==> Net(q[1..], t) <= 0
  {
    hide Net;
    assert q[0..] == q && q[1..][0..] == q[1..];
    if Withdrawn(q, t) {
      assert Net(q[0..], t) <= 0 && Net(q[1..], t) <= 0;
      forall i | 0 <= i <= |q[1..]|
        ensures Net(q[1..][i..], t) <= 0
      {
        assert q[1..][i..] == q[i + 1..];
      }
    }
    if Net(q, t) <= 0 && Withdrawn(q[1..], t) {
      forall i | 0 <= i <= |q|
        ensures Net(q[i..], t) <= 0
      {
        if i > 0 { assert q[i..] == q[1..][i - 1..]; }
      }
    }
  }

  /** After a stop and a start the drained queue leaves no filter exactly when, at the stop, every subscription in it is
      withdrawn in it again. */
  lemma RestartDrainsIff(s: State)
    requires s.alive
    ensures var r := Step(Step(s, Stop), Start);
            DrainedPrefixes(r.prefixes, r.subscriptions) == multiset{} <==> forall t :: Withdrawn(s.subscriptions, t)
  {
    var r := Step(Step(s, Stop), Start);
    assert r.prefixes == multiset{} && r.subscriptions == s.subscriptions;
    hide Step, Withdrawn;
    forall t
      ensures t !in DrainedPrefixes(multiset{}, s.subscriptions) <==> Withdrawn(s.subscriptions, t)
    {
      DrainedTopic(multiset{}, s.subscriptions, t);
      WithdrawnWhole(s.subscriptions, t);
    }
    assert DrainedPrefixes(multiset{}, s.subscriptions) == multiset{}
      <==> forall t :: t !in DrainedPrefixes(multiset{}, s.subscriptions);
  }

  lemma WithdrawnWhole(q: seq<Change<Topic>>, t: Topic)
    ensures Withdrawn(q, t) ==> Net(q, t) <= 0
  {
    assert q[0..] == q;
  }

  /** A queue that leaves no filter of those there were leaves none of nothing. */
  lemma DrainedOfFewer(prefixes: multiset<Topic>, q: seq<Change<Topic>>)
    requires DrainedPrefixes(prefixes, q) == multiset{}
    ensures DrainedPrefixes(multiset{}, q) == multiset{}
  {
    forall t
      ensures t !in DrainedPrefixes(multiset{}, q)
    {
      DrainedTopic(prefixes, q, t);
      DrainedTopic(multiset{}, q, t);
      hide Withdrawn, DrainedPrefixes;
    }
  }

  /** Every peer has one publish address of its own. */
  ghost predicate OneAddressEach(pub: map<Id, Addr>) {
    forall a, b :: a in pub && b in pub && pub[a] == pub[b] ==> a == b
  }

  /** The event names the peer's publish address. */
  ghost predicate Addressed(pub: map<Id, Addr>, e: Event) {
    match e
    case Join(id, _, a) => id in pub && pub[id] == a
    case Leave(id, a) => id in pub && pub[id] == a
    case Arrive(Hello(sender, _, a)) => IdFrom(sender) in pub && pub[IdFrom(sender)] == a
    case _ => true
  }

  /** Draining the membership queue connects SUB to exactly the peers that have a request socket. */
  ghost predicate MembersAgree(pub: map<Id, Addr>, s: State) {
    && s.sockets.Keys <= pub.Keys
    && DrainedMembers(s.connected, s.members) == set id | id in s.sockets :: pub[id]
  }

  lemma ConnectAgrees(pub: map<Id, Addr>, s: State, id: Id, repAddr: Addr)
    requires OneAddressEach(pub) && MembersAgree(pub, s) && id in pub
    ensures MembersAgree(pub, Connect(s, id, repAddr, pub[id])) && MembersAgree(pub, Disconnect(s, id, pub[id]))
  {
    DrainedMembersAppend(s.connected, s.members, Change(pub[id], true));
    DrainedMembersAppend(s.connected, s.members, Change(pub[id], false));
    var now := set x | x in s.sockets :: pub[x];
    if id !in s.sockets {
      assert (set x | x in s.sockets[id := repAddr] :: pub[x]) == now + {pub[id]};
    } else {
      assert (set x | x in s.sockets - {id} :: pub[x]) == now - {pub[id]};
    }
  }

  /** What the queue says last about an address: that it joins, or that it leaves. */
  function LastChange(q: seq<Change<Addr>>, a: Addr): Option<bool> {
    if q == [] then None
    else
      var n := |q| - 1;
      if q[n].what == a then Some(q[n].add) else LastChange(q[..n], a)
  }

  lemma {:induction false} LastChangeDecides(connected: set<Addr>, q: seq<Change<Addr>>, a: Addr)
    ensures a in DrainedMembers(connected, q)
       <==> LastChange(q, a) == Some(true) || (LastChange(q, a) == None && a in connected)
  {
    if q != [] {
      var n := |q| - 1;
      assert q == q[..n] + [q[n]];
      DrainedMembersAppend(connected, q[..n], q[n]);
      LastChangeDecides(connected, q[..n], a);
    }
  }

  /** Whoever joins in the queue leaves in it again. */
  predicate LeavesNobody(q: seq<Change<Addr>>) {
    forall i :: 0 <= i < |q| ==> LastChange(q, q[i].what) != Some(true)
  }

  lemma {:induction false} LastChangeIsInQueue(q: seq<Change<Addr>>, a: Addr)
    ensures LastChange(q, a).Some? ==> exists i :: 0 <= i < |q| && q[i].what == a
  {
    if q != [] {
      var n := |q| - 1;
      LastChangeIsInQueue(q[..n], a);
      if q[n].what != a && LastChange(q, a).Some? {
        var i :| 0 <= i < n && q[..n][i].what == a;
        assert q[i].what == a;
      }
    }
  }

  lemma DrainedFromNobody(q: seq<Change<Addr>>)
    ensures DrainedMembers({}, q) == {} <==> LeavesNobody(q)
  {
    if LeavesNobody(q) {
      forall a
        ensures a !in DrainedMembers({}, q)
      {
        LastChangeDecides({}, q, a);
        LastChangeIsInQueue(q, a);
      }
    } else {
      var i :| 0 <= i < |q| && LastChange(q, q[i].what) == Some(true);
      LastChangeDecides({}, q, q[i].what);
    }
  }

  /** Stopping closes the request sockets and leaves the queue: the next start finds agreement exactly when everyone who
      joins in the queue leaves in it again. */
  lemma RestartKeepsMembersIff(pub: map<Id, Addr>, s: State)
    requires s.alive
    ensures MembersAgree(pub, Step(Step(s, Stop), Start)) <==> LeavesNobody(s.members)
  {
    hide LeavesNobody;
    DrainedFromNobody(s.members);
    NobodyConnected(pub, Step(Step(s, Stop), Start));
  }

  lemma NobodyConnected(pub: map<Id, Addr>, s: State)
    requires s.sockets == map[]
    ensures MembersAgree(pub, s) <==> DrainedMembers(s.connected, s.members) == {}
  {
  }

  /** Agreement while the service is alive; while it is not, what the next start finds. */
  ghost predicate MembersKept(pub: map<Id, Addr>, s: State) {
    if s.alive then MembersAgree(pub, s) else s.sockets == map[] && LeavesNobody(s.members)
  }

  /** Every step keeps the memberships, except a stop that finds somebody joining in the queue. */
  lemma StepKeepsMembers(pub: map<Id, Addr>, s: State, e: Event)
    requires OneAddressEach(pub) && MembersKept(pub, s) && Addressed(pub, e)
    ensures MembersKept(pub, Step(s, e)) <==> (s.alive && e == Stop ==> LeavesNobody(s.members))
  {
    hide IdFrom, IdBytes, OneAddressEach, Addressed, LeavesNobody, MembersAgree;
    if s.alive && e != Stop {
      StaysAlive(s, e);
      AliveStepKeepsMembers(pub, s, e);
    } else if !s.alive && e == Start {
      StartKeepsMembers(pub, s);
    }
  }

  lemma StartKeepsMembers(pub: map<Id, Addr>, s: State)
    requires !s.alive && s.sockets == map[] && LeavesNobody(s.members)
    ensures MembersAgree(pub, Step(s, Start))
  {
    hide LeavesNobody;
    DrainedFromNobody(s.members);
    NobodyConnected(pub, Step(s, Start));
  }

  lemma StaysAlive(s: State, e: Event)
    requires s.alive && e != Stop
    ensures Step(s, e).alive
  {
    hide IdFrom, IdBytes;
  }

  lemma AliveStepKeepsMembers(pub: map<Id, Addr>, s: State, e: Event)
    requires OneAddressEach(pub) && MembersAgree(pub, s) && Addressed(pub, e) && s.alive && e != Stop
    ensures MembersAgree(pub, Step(s, e))
  {
    match e {
      case Join(id, repAddr, _) => ConnectAgrees(pub, s, id, repAddr);
      case Leave(id, _) => ConnectAgrees(pub, s, id, Addr(0, 0));
      case Arrive(f) => if f.Hello? { ConnectAgrees(pub, s, IdFrom(f.sender), f.repAddr); }
      case _ =>
    }
  }
}
