/** The event dispatcher of one node as a state machine on values: one queue of tokens steers three queues of items, and
    a table of subscriptions steers the messaging service. */
module Dispatch {
  import opened Types
  import S = Service

  type Topic = S.Topic

  datatype Kind = EventKind | RequestKind | StateKind

  /** What waits for the module: an event, a request, or a peer's change of state. */
  datatype Item =
    | EventItem(msg: Msg, sender: Id)
    | RequestItem(ext: S.ExtId, msg: Msg, sender: Id)
    | StateItem(peer: Id, newState: ModuleState, lastState: ModuleState)

  /** A subscription: its number and its topic. The table is ordered by number. */
  datatype Handler = Handler(subId: U32, topic: Topic)

  /** A callback of the module: a subscription's handler, or one of the module's own. */
  datatype Delivery = ToHandler(subId: U32, msg: Msg, sender: Id) | ToModule(item: Item)

  /** The tokens, and the items of each kind. */
  datatype Queues = Queues(meta: seq<Kind>, events: seq<Item>, requests: seq<Item>, states: seq<Item>)

  datatype Command = EnableModule | DisableModule | StopInstance

  datatype State = State(
    svc: S.State,
    alive: bool,
    bufferSize: int,
    q: Queues,
    handlers: seq<Handler>,
    subCounter: U32,
    delivered: seq<Delivery>,
    commands: seq<Command>)

  /** A delivery is given whether the module is enabled each time that is asked, and what it replies at once. */
  datatype Event =
    | Start(bufferSize: int) | Stop | Enable | Disable
    | SubMsg(msg: Msg, sender: Id)
    | Arrive(frame: S.Frame)
    | Notify
    | PeerChange(peer: Id, repAddr: Addr, pubAddr: Addr, newState: ModuleState, lastState: ModuleState)
    | Subscribe(topic: Topic) | Unsubscribe(handle: Handler)
    | Send(target: Id, msg: Msg) | Cancel(reqId: U64)
    | Deliver(asked: seq<bool>, reply: Option<Msg>)

  function KindOf(i: Item): Kind {
    match i
    case EventItem(_, _) => EventKind
    case RequestItem(_, _, _) => RequestKind
    case StateItem(_, _, _) => StateKind
  }

  const EMPTY := Queues([], [], [], [])

  function Of(q: Queues, k: Kind): seq<Item> {
    match k
    case EventKind => q.events
    case RequestKind => q.requests
    case StateKind => q.states
  }

  /** An item goes to the back of its queue. The token of an event goes to the back too, any other token to the front. */
  function Push(q: Queues, i: Item): Queues {
    match i
    case EventItem(_, _) => q.(events := q.events + [i], meta := q.meta + [EventKind])
    case RequestItem(_, _, _) => q.(requests := q.requests + [i], meta := [RequestKind] + q.meta)
    case StateItem(_, _, _) => q.(states := q.states + [i], meta := [StateKind] + q.meta)
  }

  /** Takes one token and the oldest item of its kind. */
  function Pop(q: Queues): Queues {
    if q.meta == [] then q
    else
      var r := q.(meta := q.meta[1..]);
      match q.meta[0]
      case EventKind => if q.events == [] then r else r.(events := q.events[1..])
      case RequestKind => if q.requests == [] then r else r.(requests := q.requests[1..])
      case StateKind => if q.states == [] then r else r.(states := q.states[1..])
  }

  /** The item Pop takes. */
  function Next(q: Queues): Option<Item> {
    if q.meta != [] && Of(q, q.meta[0]) != [] then Some(Of(q, q.meta[0])[0]) else None
  }

  // ---- System requests ----

  const SYSTEM_REQUEST: Topic := [3, 255]
  const SYSTEM_REPLY: Topic := [4, 255]

  /** The command a system request carries. */
  function CommandIn(data: seq<Byte>): Option<Command> {
    if data == [3] then Some(EnableModule)
    else if data == [1] then Some(DisableModule)
    else if data == [2] then Some(StopInstance)
    else None
  }

  function Bytes(text: string): seq<Byte> {
    seq(|text|, i requires 0 <= i < |text| => text[i] as int % 256)
  }

  function SystemReply(data: seq<Byte>): Msg {
    Msg(SYSTEM_REPLY, if CommandIn(data).Some? then data else Bytes("unknown system messsage"))
  }

  // ---- The table of subscriptions ----

  /** An entry under a number that is taken is not inserted. */
  function Insert(hs: seq<Handler>, h: Handler): seq<Handler> {
    if hs == [] || h.subId < hs[0].subId then [h] + hs
    else if h.subId == hs[0].subId then hs
    else [hs[0]] + Insert(hs[1..], h)
  }

  function Erase(hs: seq<Handler>, subId: U32): seq<Handler> {
    if hs == [] then []
    else if hs[0].subId == subId then hs[1..]
    else [hs[0]] + Erase(hs[1..], subId)
  }

  predicate HasId(hs: seq<Handler>, subId: U32) {
    exists i :: 0 <= i < |hs| && hs[i].subId == subId
  }

  ghost predicate Sorted(hs: seq<Handler>) {
    forall i, j :: 0 <= i < j < |hs| ==> hs[i].subId < hs[j].subId
  }

  /** The handlers that take a message, in the order of their numbers. */
  function Matching(hs: seq<Handler>, msg: Msg, sender: Id): seq<Delivery> {
    if hs == [] then []
    else
      var n := |hs| - 1;
      Matching(hs[..n], msg, sender) + if hs[n].topic <= msg.topic then [ToHandler(hs[n].subId, msg, sender)] else []
  }

  /** Unsubscribing every handler's topic, from the first on. */
  function UnsubscribeAll(svc: S.State, hs: seq<Handler>): S.State {
    if hs == [] then svc
    else S.Step(UnsubscribeAll(svc, hs[..|hs| - 1]), S.Unsubscribe(hs[|hs| - 1].topic))
  }

  // ---- Steps ----

  function Initial(self: S.Self, bufferSize: int): State {
    State(S.Initial(self), false, bufferSize, EMPTY, [], 0, [], [])
  }

  /** An event that finds the queue full is dropped. */
  predicate Drops(s: State) {
    s.bufferSize > 0 && |s.q.events| >= s.bufferSize
  }

  function TakeEvent(s: State, msg: Msg, sender: Id): State {
    if !s.alive || Drops(s) then s
    else s.(q := Push(s.q, EventItem(msg, sender)))
  }

  /** System requests are handled at once, unless answering them fails; others are queued urgently. */
  function TakeRequest(s: State, ext: S.ExtId, msg: Msg): State {
    if SYSTEM_REQUEST <= msg.topic && !s.svc.alive then s
    else if SYSTEM_REQUEST <= msg.topic then
      var c := CommandIn(msg.data);
      s.(svc := S.Step(s.svc, S.Answer(ext, SystemReply(msg.data))),
         commands := if c.Some? then s.commands + [c.value] else s.commands)
    else if !s.alive then s
    else s.(q := Push(s.q, RequestItem(ext, msg, ext.sender)))
  }

  function TakeFrame(s: State, f: S.Frame): State {
    var r := s.(svc := S.Step(s.svc, S.Arrive(f)));
    if s.svc.alive && f.Request? then TakeRequest(r, S.ExtId(S.IdFrom(f.sender), f.reqId), f.msg) else r
  }

  /** The service learns of peers that come and go, and fails when it is not alive. */
  function PeerEvent(e: Event): Option<S.Event>
    requires e.PeerChange?
  {
    if e.lastState == Dead then Some(S.Join(e.peer, e.repAddr, e.pubAddr))
    else if e.newState == Dead then Some(S.Leave(e.peer, e.pubAddr))
    else None
  }

  function TakePeerChange(s: State, e: Event): State
    requires e.PeerChange?
  {
    var p := PeerEvent(e);
    if p.Some? && !s.svc.alive then s
    else s.(svc := if p.Some? then S.Step(s.svc, p.value) else s.svc,
            q := Push(s.q, StateItem(e.peer, e.newState, e.lastState)))
  }

  /** The callbacks for an item, as far as the module is enabled. */
  function Deliveries(hs: seq<Handler>, i: Item): seq<Delivery> {
    if i.EventItem? then Matching(hs, i.msg, i.sender) else [ToModule(i)]
  }

  /** The module is enabled when that is asked for the i-th time. */
  predicate Granted(asked: seq<bool>, i: nat) {
    i < |asked| && asked[i]
  }

  /** The callbacks at whose turn the module is enabled. */
  function Selected(ds: seq<Delivery>, asked: seq<bool>): seq<Delivery> {
    if ds == [] then []
    else
      var n := |ds| - 1;
      Selected(ds[..n], asked) + if Granted(asked, n) then [ds[n]] else []
  }

  /** The delivery thread takes one item and hands it to the module as far as that is enabled. What the module replies to
      a request at once is sent. */
  function DeliverNext(s: State, asked: seq<bool>, reply: Option<Msg>): State {
    var i := Next(s.q);
    var r := s.(q := Pop(s.q));
    if i.None? then r
    else r.(delivered := s.delivered + Selected(Deliveries(s.handlers, i.value), asked),
            svc := if i.value.RequestItem? && Granted(asked, 0) && reply.Some?
                   then S.Step(s.svc, S.Answer(i.value.ext, reply.value)) else s.svc)
  }

  /** Disabling fails half-way over a service that is not alive: the queues are cleared and the handlers stay. */
  function DisableAll(s: State): State {
    if !s.alive then s
    else if !s.svc.alive then s.(alive := false, q := EMPTY)
    else s.(alive := false, q := EMPTY, handlers := [],
            svc := S.Step(UnsubscribeAll(s.svc, s.handlers), S.Disable))
  }

  function SubscribeTo(s: State, topic: Topic): State {
    if !s.alive then s
    else s.(handlers := Insert(s.handlers, Handler(s.subCounter, topic)), subCounter := (s.subCounter + 1) % TWO32,
            svc := S.Step(s.svc, S.Subscribe(topic)))
  }

  function UnsubscribeFrom(s: State, h: Handler): State {
    if !s.alive then s
    else s.(handlers := Erase(s.handlers, h.subId), svc := S.Step(s.svc, S.Unsubscribe(h.topic)))
  }

  function Step(s: State, e: Event): State {
    match e
    case Start(size) =>
      if s.svc.alive then s.(bufferSize := size)
      else s.(bufferSize := size,
              svc := S.Step(S.Step(s.svc, S.Start), S.Join(s.svc.self.id, s.svc.self.repAddr, s.svc.self.pubAddr)))
    case Stop => var r := DisableAll(s); r.(svc := S.Step(r.svc, S.Stop))
    case Enable => s.(alive := true)
    case Disable => DisableAll(s)
    case SubMsg(msg, sender) => TakeEvent(s, msg, sender)
    case Arrive(f) => TakeFrame(s, f)
    case Notify => s.(svc := S.Step(s.svc, S.Notify))
    case PeerChange(_, _, _, _, _) => TakePeerChange(s, e)
    case Subscribe(topic) => SubscribeTo(s, topic)
    case Unsubscribe(h) => UnsubscribeFrom(s, h)
    case Send(target, msg) => if s.alive then s.(svc := S.Step(s.svc, S.Send(target, msg))) else s
    case Cancel(id) => s.(svc := S.Step(s.svc, S.Cancel(id)))
    case Deliver(asked, reply) => if s.alive then DeliverNext(s, asked, reply) else s
  }

  function Run(s: State, es: seq<Event>): State {
    if es == [] then s else Step(Run(s, es[..|es| - 1]), es[|es| - 1])
  }

  // ---- Tokens and queues ----

  function CountKind(meta: seq<Kind>, k: Kind): nat {
    if meta == [] then 0 else CountKind(meta[1..], k) + if meta[0] == k then 1 else 0
  }

  lemma {:induction false} CountKindAppend(meta: seq<Kind>, x: Kind, k: Kind)
    ensures CountKind(meta + [x], k) == CountKind(meta, k) + if x == k then 1 else 0
  {
    if meta != [] {
      CountKindAppend(meta[1..], x, k);
      assert (meta + [x])[1..] == meta[1..] + [x];
    } else {
      assert [] + [x] == [x];
    }
  }

  /** One token per queued item of each kind. */
  ghost predicate TokensMatch(q: Queues) {
    forall k :: CountKind(q.meta, k) == |Of(q, k)|
  }

  /** Every queue holds items of its own kind. */
  ghost predicate KindsMatch(q: Queues) {
    forall k, i :: 0 <= i < |Of(q, k)| ==> KindOf(Of(q, k)[i]) == k
  }

  /** Urgent tokens stand before event tokens. */
  ghost predicate UrgentFirst(meta: seq<Kind>) {
    forall i, j :: 0 <= i < j < |meta| && meta[i] == EventKind ==> meta[j] == EventKind
  }

  ghost predicate InOrder(q: Queues) {
    TokensMatch(q) && KindsMatch(q) && UrgentFirst(q.meta)
  }

  /** The queues are in order, the events within their limit, and while the dispatcher is not alive only state changes
      wait. */
  ghost predicate Orderly(s: State) {
    && InOrder(s.q)
    && (s.bufferSize > 0 ==> |s.q.events| <= s.bufferSize)
    && (!s.alive ==> s.q.events == [] && s.q.requests == [])
  }

  lemma PushKeepsOrder(q: Queues, i: Item)
    requires InOrder(q)
    ensures InOrder(Push(q, i))
  {
    hide TokensMatch, KindsMatch, Push;
    PushMatchesTokens(q, i);
    PushMatchesKinds(q, i);
    PushUrgentFirst(q, i);
  }

  lemma PushMatchesTokens(q: Queues, i: Item)
    requires TokensMatch(q)
    ensures TokensMatch(Push(q, i))
  {
    forall k
      ensures CountKind(Push(q, i).meta, k) == |Of(Push(q, i), k)|
    {
      assert CountKind(q.meta, k) == |Of(q, k)|;
      CountKindAppend(q.meta, EventKind, k);
      assert ([RequestKind] + q.meta)[1..] == q.meta && ([StateKind] + q.meta)[1..] == q.meta;
    }
  }

  lemma PushMatchesKinds(q: Queues, i: Item)
    requires KindsMatch(q)
    ensures KindsMatch(Push(q, i))
  {
    forall k, j | 0 <= j < |Of(Push(q, i), k)|
      ensures KindOf(Of(Push(q, i), k)[j]) == k
    {
      assert j < |Of(q, k)| ==> KindOf(Of(q, k)[j]) == k;
    }
  }

  lemma PushUrgentFirst(q: Queues, i: Item)
    requires UrgentFirst(q.meta)
    ensures UrgentFirst(Push(q, i).meta)
  {
  }

  /** A token always finds an item of its kind, so the delivery thread never waits for one. */
  lemma PopKeepsOrder(q: Queues)
    requires InOrder(q) && q.meta != []
    ensures Next(q).Some? && KindOf(Next(q).value) == q.meta[0] && InOrder(Pop(q))
  {
    forall k
      ensures CountKind(Pop(q).meta, k) == |Of(Pop(q), k)|
    {
      assert CountKind(q.meta, k) == |Of(q, k)|;
      assert CountKind(q.meta, q.meta[0]) == |Of(q, q.meta[0])|;
    }
    assert KindOf(Of(q, q.meta[0])[0]) == q.meta[0];
    forall k, j | 0 <= j < |Of(Pop(q), k)|
      ensures KindOf(Of(Pop(q), k)[j]) == k
    {
      assert KindOf(Of(q, k)[j]) == k;
      assert j + 1 < |Of(q, k)| ==> KindOf(Of(q, k)[j + 1]) == k;
    }
  }

  /** The items an event puts into the queues. */
  function Accepts(s: State, e: Event): Option<Item> {
    match e
    case SubMsg(msg, sender) => if s.alive && !Drops(s) then Some(EventItem(msg, sender)) else None
    case Arrive(f) =>
      if s.alive && s.svc.alive && f.Request? && !(SYSTEM_REQUEST <= f.msg.topic) then
        Some(RequestItem(S.ExtId(S.IdFrom(f.sender), f.reqId), f.msg, S.IdFrom(f.sender)))
      else None
    case PeerChange(peer, _, _, newState, lastState) =>
      if s.svc.alive || (lastState != Dead && newState != Dead) then Some(StateItem(peer, newState, lastState)) else None
    case _ => None
  }

  predicate Clears(s: State, e: Event) {
    s.alive && (e.Disable? || e.Stop?)
  }

  predicate Takes(s: State, e: Event) {
    e.Deliver? && s.alive
  }

  /** What a step does to the queues. */
  lemma StepOnQueues(s: State, e: Event)
    ensures Step(s, e).q == if Clears(s, e) then EMPTY
                            else if Takes(s, e) then Pop(s.q)
                            else if Accepts(s, e).Some? then Push(s.q, Accepts(s, e).value)
                            else s.q
    ensures Takes(s, e) ==> Accepts(s, e).None?
    ensures Accepts(s, e).Some? && Accepts(s, e).value.EventItem? ==> s.alive && !Drops(s)
    ensures Accepts(s, e).Some? && Accepts(s, e).value.RequestItem? ==> s.alive
    ensures Step(s, e).alive == if e.Enable? then true else if e.Stop? || e.Disable? then false else s.alive
    ensures !e.Start? ==> Step(s, e).bufferSize == s.bufferSize
  {
    hide S.Step, S.IdFrom, UnsubscribeAll, Insert, Erase, Matching, SystemReply, CommandIn, Push, Pop;
  }

  /** Every step keeps the queues in order. */
  lemma StepKeepsOrder(s: State, e: Event)
    requires Orderly(s) && (e.Start? ==> !s.alive)
    ensures Orderly(Step(s, e))
  {
    StepOnQueues(s, e);
    if s.q.meta != [] { PopKeepsOrder(s.q); }
    if Accepts(s, e).Some? { PushKeepsOrder(s.q, Accepts(s, e).value); }
    hide Step, Accepts, TokensMatch, KindsMatch, UrgentFirst;
  }

  // ---- First in, first out, per kind ----

  function OfKind(i: Option<Item>, k: Kind): seq<Item> {
    if i.Some? && KindOf(i.value) == k then [i.value] else []
  }

  /** The kind's item that the event takes. */
  function TakenNow(s: State, e: Event, k: Kind): seq<Item> {
    if Takes(s, e) then OfKind(Next(s.q), k) else []
  }

  /** The items of a kind accepted, and those taken, since the queues were last cleared. */
  function Accepted(s: State, es: seq<Event>, k: Kind): seq<Item> {
    if es == [] then []
    else
      var before, e := es[..|es| - 1], es[|es| - 1];
      if Clears(Run(s, before), e) then []
      else Accepted(s, before, k) + OfKind(Accepts(Run(s, before), e), k)
  }

  function Taken(s: State, es: seq<Event>, k: Kind): seq<Item> {
    if es == [] then []
    else
      var before, e := es[..|es| - 1], es[|es| - 1];
      if Clears(Run(s, before), e) then []
      else Taken(s, before, k) + TakenNow(Run(s, before), e, k)
  }

  /** The dispatcher is only started while it is not alive. */
  ghost predicate StartsStopped(s: State, es: seq<Event>) {
    forall i :: 0 <= i < |es| && es[i].Start? ==> !Run(s, es[..i]).alive
  }

  lemma PushAtBack(q: Queues, i: Item, k: Kind)
    ensures Of(Push(q, i), k) == Of(q, k) + OfKind(Some(i), k)
  {
  }

  lemma PopAtFront(q: Queues, k: Kind)
    requires InOrder(q)
    ensures OfKind(Next(q), k) + Of(Pop(q), k) == Of(q, k)
  {
    if q.meta != [] { PopKeepsOrder(q); }
    hide TokensMatch, KindsMatch, UrgentFirst;
  }

  lemma {:induction false} RunKeepsOrder(s: State, es: seq<Event>)
    requires Orderly(s) && StartsStopped(s, es)
    ensures Orderly(Run(s, es))
  {
    if es != [] {
      var before, e := es[..|es| - 1], es[|es| - 1];
      assert forall i :: 0 <= i < |before| ==> es[..i] == before[..i];
      RunKeepsOrder(s, before);
      StepKeepsOrder(Run(s, before), e);
    }
  }

  lemma StepMovesItems(s: State, e: Event, k: Kind)
    requires InOrder(s.q)
    ensures if Clears(s, e) then Of(Step(s, e).q, k) == []
            else TakenNow(s, e, k) + Of(Step(s, e).q, k) == Of(s.q, k) + OfKind(Accepts(s, e), k)
  {
    hide Step, Push, Pop, InOrder, OfKind, Next, Accepts;
    StepOnQueues(s, e);
    PopAtFront(s.q, k);
    if Accepts(s, e).Some? { PushAtBack(s.q, Accepts(s, e).value, k); }
    NothingOfKind(k);
    assert [] + Of(Step(s, e).q, k) == Of(Step(s, e).q, k) && Of(s.q, k) + [] == Of(s.q, k);
  }

  lemma NothingOfKind(k: Kind)
    ensures OfKind(None, k) == []
  {
  }

  /** In every run, for each kind: the items taken, followed by those that wait, are those accepted, in order. */
  lemma {:induction false} FirstInFirstOut(s: State, es: seq<Event>, k: Kind)
    requires Orderly(s) && s.q == EMPTY && StartsStopped(s, es)
    ensures Taken(s, es, k) + Of(Run(s, es).q, k) == Accepted(s, es, k)
  {
    hide Step, Accepts, Push, Pop, InOrder, OfKind, Takes, Next, Clears;
    if es != [] {
      var before, e := es[..|es| - 1], es[|es| - 1];
      var r := Run(s, before);
      assert StartsStopped(s, before) by {
        assert forall i :: 0 <= i < |before| ==> es[..i] == before[..i];
      }
      FirstInFirstOut(s, before, k);
      RunKeepsOrder(s, before);
      StepMovesItems(r, e, k);
      assert Run(s, es) == Step(r, e);
      assert !Clears(r, e) ==> Taken(s, es, k) == Taken(s, before, k) + TakenNow(r, e, k);
      hide Run, StartsStopped, TakenNow;
      if !Clears(r, e) { Regroup(Taken(s, before, k), TakenNow(r, e, k), Of(Step(r, e).q, k)); }
    }
  }

  lemma Regroup(a: seq<Item>, b: seq<Item>, c: seq<Item>)
    ensures (a + b) + c == a + (b + c)
  {
  }

  // ---- What is delivered ----

  /** The handler of some subscription that takes the message. */
  ghost predicate Called(hs: seq<Handler>, msg: Msg, sender: Id, d: Delivery) {
    exists i :: 0 <= i < |hs| && hs[i].topic <= msg.topic && d == ToHandler(hs[i].subId, msg, sender)
  }

  lemma CalledLast(hs: seq<Handler>, h: Handler, msg: Msg, sender: Id, d: Delivery)
    ensures Called(hs + [h], msg, sender, d)
       <==> Called(hs, msg, sender, d) || (h.topic <= msg.topic && d == ToHandler(h.subId, msg, sender))
  {
    var all := hs + [h];
    if i :| 0 <= i < |hs| && hs[i].topic <= msg.topic && d == ToHandler(hs[i].subId, msg, sender) {
      assert all[i] == hs[i];
    }
    assert all[|hs|] == h;
  }

  ghost predicate Ascending(ds: seq<Delivery>) {
    && (forall i :: 0 <= i < |ds| ==> ds[i].ToHandler?)
    && forall i, j :: 0 <= i < j < |ds| ==> ds[i].subId < ds[j].subId
  }

  /** A message goes to exactly the handlers whose topic it starts with, once each, in the order of their numbers. */
  lemma {:induction false} MatchingInOrder(hs: seq<Handler>, msg: Msg, sender: Id)
    requires Sorted(hs)
    ensures forall d :: d in Matching(hs, msg, sender) <==> Called(hs, msg, sender, d)
    ensures Ascending(Matching(hs, msg, sender))
  {
    if hs != [] {
      var n := |hs| - 1;
      var before := Matching(hs[..n], msg, sender);
      MatchingInOrder(hs[..n], msg, sender);
      assert hs == hs[..n] + [hs[n]];
      forall d
        ensures Called(hs, msg, sender, d)
           <==> Called(hs[..n], msg, sender, d)
                || (hs[n].topic <= msg.topic && d == ToHandler(hs[n].subId, msg, sender))
      {
        CalledLast(hs[..n], hs[n], msg, sender, d);
      }
      forall k | 0 <= k < |before|
        ensures before[k].ToHandler? && before[k].subId < hs[n].subId
      {
        assert before[k] in before;
        assert Called(hs[..n], msg, sender, before[k]);
      }
    }
  }

  ghost predicate CalledAt(ds: seq<Delivery>, asked: seq<bool>, d: Delivery) {
    exists i :: 0 <= i < |ds| && Granted(asked, i) && ds[i] == d
  }

  lemma CalledAtLast(ds: seq<Delivery>, x: Delivery, asked: seq<bool>, d: Delivery)
    ensures CalledAt(ds + [x], asked, d) <==> CalledAt(ds, asked, d) || (Granted(asked, |ds|) && d == x)
  {
    var all := ds + [x];
    if i :| 0 <= i < |ds| && Granted(asked, i) && ds[i] == d { assert all[i] == d; }
    assert all[|ds|] == x;
  }

  lemma {:induction false} SelectedAreCalled(ds: seq<Delivery>, asked: seq<bool>)
    ensures forall d :: d in Selected(ds, asked) <==> CalledAt(ds, asked, d)
  {
    if ds != [] {
      var n := |ds| - 1;
      SelectedAreCalled(ds[..n], asked);
      assert ds == ds[..n] + [ds[n]];
      forall d
        ensures CalledAt(ds, asked, d) <==> CalledAt(ds[..n], asked, d) || (Granted(asked, n) && d == ds[n])
      {
        CalledAtLast(ds[..n], ds[n], asked, d);
      }
      hide CalledAt, Granted;
    }
  }

  lemma {:induction false} SelectedAscend(ds: seq<Delivery>, asked: seq<bool>)
    requires Ascending(ds)
    ensures Ascending(Selected(ds, asked))
  {
    if ds != [] {
      var n := |ds| - 1;
      var before := Selected(ds[..n], asked);
      SelectedAscend(ds[..n], asked);
      SelectedAreCalled(ds[..n], asked);
      forall k | 0 <= k < |before|
        ensures before[k].ToHandler? && before[k].subId < ds[n].subId
      {
        assert before[k] in before;
        assert CalledAt(ds[..n], asked, before[k]);
      }
      hide CalledAt, Granted, Selected;
      assert Selected(ds, asked) == before + [ds[n]] || Selected(ds, asked) == before by { LastSelected(ds, asked); }
    }
  }

  lemma LastSelected(ds: seq<Delivery>, asked: seq<bool>)
    requires ds != []
    ensures var n := |ds| - 1;
            Selected(ds, asked) == if Granted(asked, n) then Selected(ds[..n], asked) + [ds[n]] else Selected(ds[..n], asked)
  {
  }

  lemma {:induction false} AllSelected(ds: seq<Delivery>, asked: seq<bool>)
    requires forall i :: 0 <= i < |ds| ==> Granted(asked, i)
    ensures Selected(ds, asked) == ds
  {
    if ds != [] { AllSelected(ds[..|ds| - 1], asked); }
  }

  /** The callbacks made are those at whose turn the module is enabled, still by ascending number; all of them when it is
      enabled throughout. */
  lemma SelectedInOrder(ds: seq<Delivery>, asked: seq<bool>)
    requires Ascending(ds)
    ensures forall d :: d in Selected(ds, asked) <==> CalledAt(ds, asked, d)
    ensures Ascending(Selected(ds, asked))
    ensures (forall i :: 0 <= i < |ds| ==> Granted(asked, i)) ==> Selected(ds, asked) == ds
  {
    hide Ascending, Selected, CalledAt, Granted;
    SelectedAreCalled(ds, asked);
    SelectedAscend(ds, asked);
    if forall i :: 0 <= i < |ds| ==> Granted(asked, i) { AllSelected(ds, asked); }
  }

  /** The answer to a system request starts with the code of the command exactly when that command was recognized: what a
      remote instance takes as success is never the answer to an unknown request. */
  lemma SystemReplyNamesCommand(data: seq<Byte>, code: Byte)
    requires 1 <= code <= 3
    ensures SystemReply(data).data != [] && (SystemReply(data).data[0] == code <==> data == [code])
    ensures CommandIn(data).Some? <==> data == [1] || data == [2] || data == [3]
  {
    assert Bytes("unknown system messsage")[0] == 117;
  }

  /** A system request is never queued for the module. It is answered at once, to its sender if that has a socket, and no
      longer waits for a reply; the core is told to enable the module for [3], to disable it for [1], to stop the instance
      for [2], and nothing for any other data. */
  lemma SystemRequestIsServed(s: State, reqId: U64, sender: Id, msg: Msg)
    requires s.svc.alive && [3, 255] <= msg.topic
    ensures var f := S.Request(reqId, S.IdBytes(sender), msg);
            var r := Step(s, Arrive(f));
            && r.q == s.q && S.ExtId(sender, reqId) !in r.svc.replies
            && r.svc.wire == (if sender in s.svc.sockets
                              then s.svc.wire + [S.Packet(s.svc.sockets[sender], S.Reply(reqId, SystemReply(msg.data)))]
                              else s.svc.wire)
            && (msg.data == [3] ==> r.commands == s.commands + [EnableModule])
            && (msg.data == [1] ==> r.commands == s.commands + [DisableModule])
            && (msg.data == [2] ==> r.commands == s.commands + [StopInstance])
            && (msg.data !in {[1], [2], [3]} ==> r.commands == s.commands)
    ensures SystemReply(msg.data).topic == [4, 255]
    ensures msg.data in {[1], [2], [3]} ==> SystemReply(msg.data).data == msg.data
  {
    S.IdRoundTrip(sender);
    hide S.IdFrom, S.IdBytes, Bytes;
  }

  // ---- What reaches the module ----

  /** An event is queued exactly when the dispatcher is alive and fewer events wait than the limit set at the start; without
      a positive limit there is room always. */
  lemma EventQueuedExactly(s: State, msg: Msg, sender: Id, size: int)
    ensures var r := Step(s, SubMsg(msg, sender));
            r.q.events == if s.alive && (s.bufferSize <= 0 || |s.q.events| < s.bufferSize)
                          then s.q.events + [EventItem(msg, sender)] else s.q.events
    ensures Step(s, Start(size)).bufferSize == size
  {
  }

  /** A request waits for the module exactly when the dispatcher is alive and it is none of the system's; its answer will be
      for its sender. */
  lemma RequestQueuedExactly(s: State, reqId: U64, sender: Id, msg: Msg)
    requires s.svc.alive
    ensures var r := Step(s, Arrive(S.Request(reqId, S.IdBytes(sender), msg)));
            r.q.requests == if s.alive && !([3, 255] <= msg.topic)
                            then s.q.requests + [RequestItem(S.ExtId(sender, reqId), msg, sender)] else s.q.requests
  {
    S.IdRoundTrip(sender);
    hide S.IdFrom, S.IdBytes, S.Step;
  }

  /** A peer's change of state is queued for the module, whether that is enabled or not. A peer that was Dead joins the
      messaging service and one that is Dead leaves it; for that the service must be alive, else nothing happens at all. */
  lemma PeerChangeTakesEffect(s: State, peer: Id, repAddr: Addr, pubAddr: Addr, newState: ModuleState, lastState: ModuleState)
    ensures var r := Step(s, PeerChange(peer, repAddr, pubAddr, newState, lastState));
            if !s.svc.alive && (lastState == Dead || newState == Dead) then r == s
            else
              && r.q.states == s.q.states + [StateItem(peer, newState, lastState)] && r.q.meta == [StateKind] + s.q.meta
              && r.svc == if lastState == Dead then S.Connect(s.svc, peer, repAddr, pubAddr)
                          else if newState == Dead then S.Disconnect(s.svc, peer, pubAddr)
                          else s.svc
  {
    hide S.Connect, S.Disconnect;
  }

  /** Disabling, and stopping, leave nothing waiting; over an alive service also no subscription, no waiting request and no
      outstanding promise. */
  lemma DisablingClears(s: State)
    requires s.alive
    ensures var r := Step(s, Disable);
            && !r.alive && r.q == Queues([], [], [], []) && r.delivered == s.delivered && r.commands == s.commands
            && (s.svc.alive ==> r.handlers == [] && r.svc.replies == map[] && r.svc.outstanding == map[])
            && (!s.svc.alive ==> r.handlers == s.handlers)
    ensures var r := Step(s, Stop);
            && !r.alive && !r.svc.alive && r.q == Queues([], [], [], [])
            && (s.svc.alive ==> r.handlers == [] && r.svc.replies == map[] && r.svc.sockets == map[])
  {
    hide UnsubscribeAll;
    UnsubscribingKeepsAlive(s.svc, s.handlers);
  }

  lemma {:induction false} UnsubscribingKeepsAlive(svc: S.State, hs: seq<Handler>)
    ensures UnsubscribeAll(svc, hs).alive == svc.alive
  {
    if hs != [] { UnsubscribingKeepsAlive(svc, hs[..|hs| - 1]); }
  }

  // ---- Enabled, and how often subscribed ----

  /** The dispatcher was enabled there and neither disabled nor stopped since. */
  ghost predicate EnabledSince(es: seq<Event>, i: int) {
    0 <= i < |es| && es[i].Enable? && forall k :: i < k < |es| ==> !es[k].Disable? && !es[k].Stop?
  }

  ghost predicate IsEnabled(es: seq<Event>) {
    exists i :: EnabledSince(es, i)
  }

  lemma EnabledLater(es: seq<Event>, e: Event)
    ensures IsEnabled(es + [e]) <==> e.Enable? || (IsEnabled(es) && !e.Disable? && !e.Stop?)
  {
    var all, n := es + [e], |es|;
    assert forall k :: 0 <= k < n ==> all[k] == es[k];
    assert all[n] == e;
    if e.Enable? { assert EnabledSince(all, n); }
    if i :| EnabledSince(all, i) { assert i == n || EnabledSince(es, i); }
    if i :| EnabledSince(es, i) { assert !e.Disable? && !e.Stop? ==> EnabledSince(all, i); }
  }

  /** The subscriptions made while enabled. */
  ghost function SubscriptionsMade(es: seq<Event>): nat {
    if es == [] then 0
    else
      var before, e := es[..|es| - 1], es[|es| - 1];
      SubscriptionsMade(before) + if e.Subscribe? && IsEnabled(before) then 1 else 0
  }

  /** In every run: the dispatcher takes events and subscriptions exactly from an enabling until the next disable or stop, and
      the numbers of subscriptions count up from zero, over disables and stops. */
  lemma {:induction false} EnabledAndNumbered(self: S.Self, size: int, es: seq<Event>)
    ensures Run(Initial(self, size), es).alive <==> IsEnabled(es)
    ensures Run(Initial(self, size), es).subCounter == SubscriptionsMade(es) % TWO32
  {
    hide Step, IsEnabled;
    if es == [] {
      assert !IsEnabled(es) by { NeverEnabled(); }
    } else {
      var before, e := es[..|es| - 1], es[|es| - 1];
      EnabledAndNumbered(self, size, before);
      StepOnQueues(Run(Initial(self, size), before), e);
      StepOnCounter(Run(Initial(self, size), before), e);
      EnabledLater(before, e);
      assert before + [e] == es;
      CountUp(SubscriptionsMade(before));
    }
  }

  lemma NeverEnabled()
    ensures !IsEnabled([])
  {
  }

  lemma CountUp(n: nat)
    ensures (n % TWO32 + 1) % TWO32 == (n + 1) % TWO32
  {
  }

  lemma StepOnCounter(s: State, e: Event)
    ensures Step(s, e).subCounter == if e.Subscribe? && s.alive then (s.subCounter + 1) % TWO32 else s.subCounter
  {
    hide S.Step, S.IdFrom, UnsubscribeAll, Insert, Erase, Matching, SystemReply, CommandIn, Push, Pop;
  }

  /** The next item is a request whose sender waits for a reply and has a socket. */
  ghost predicate Answerable(s: State) {
    && s.alive && s.svc.alive && S.RepliesToSender(s.svc) && Next(s.q).Some? && Next(s.q).value.RequestItem?
    && Next(s.q).value.ext in s.svc.replies && Next(s.q).value.ext.sender in s.svc.sockets
  }

  /** The module is asked to handle a request if it is enabled then. What it replies at once leaves for the sender of the
      request, which waits no longer; without such a reply nothing leaves and the request waits on. */
  lemma ReplyAtOnceIsSent(s: State, asked: seq<bool>, reply: Option<Msg>)
    requires s.alive && s.svc.alive && S.RepliesToSender(s.svc) && Next(s.q).Some? && Next(s.q).value.RequestItem?
    ensures var i, r := Next(s.q).value, Step(s, Deliver(asked, reply));
            if asked != [] && asked[0] then
              && r.delivered == s.delivered + [ToModule(i)]
              && (reply.None? ==> r.svc == s.svc)
              && (reply.Some? ==> i.ext !in r.svc.replies)
              && (reply.Some? && i.ext in s.svc.replies && i.ext.sender in s.svc.sockets ==>
                    r.svc == s.svc.(replies := s.svc.replies - {i.ext},
                                    wire := s.svc.wire + [S.Packet(s.svc.sockets[i.ext.sender],
                                                                   S.Reply(i.ext.reqId, reply.value))]))
            else r.delivered == s.delivered && r.svc == s.svc
  {
    hide S.Settle, S.IdFrom, S.IdBytes, Pop, Matching, Selected;
    OneSelected(ToModule(Next(s.q).value), asked);
  }

  lemma OneSelected(d: Delivery, asked: seq<bool>)
    ensures Selected([d], asked) == if asked != [] && asked[0] then [d] else []
  {
    assert [d][..0] == [];
  }

  /** An event reaches the handlers that match its topic, as far as the module is enabled at their turn; a state change
      reaches the module if it is enabled then. Neither touches the messaging service. */
  lemma OtherItemsAreDelivered(s: State, asked: seq<bool>, reply: Option<Msg>)
    requires s.alive && Next(s.q).Some? && !Next(s.q).value.RequestItem?
    ensures var i, r := Next(s.q).value, Step(s, Deliver(asked, reply));
            && r.svc == s.svc
            && (i.EventItem? ==> r.delivered == s.delivered + Selected(Matching(s.handlers, i.msg, i.sender), asked))
            && (i.StateItem? ==> r.delivered == s.delivered + if asked != [] && asked[0] then [ToModule(i)] else [])
  {
    hide S.Step, Pop, Matching, Selected;
    OneSelected(ToModule(Next(s.q).value), asked);
  }
}
