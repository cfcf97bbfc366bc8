/** The handles of issued requests: they share the request's number, pass its future on when moved, and the last one to go
    cancels the request. */
module InReply {
  import opened Types
  import opened Messaging
  import S = Service

  // ---- The handles as a state machine ----

  /** A handle of the request at this position; at most one handle of a request holds its future. */
  datatype Handle = Handle(request: nat, hasFuture: bool)

  datatype State = State(
    svc: S.State,
    handles: map<nat, Handle>,
    /** The shared use counts of the request numbers. */
    uses: map<nat, nat>)

  datatype Event =
    | Send(target: Id, msg: Msg, handle: nat)
    | Move(from: nat, to: nat)
    | Destroy(handle: nat)
    | CancelRequest(handle: nat)
    | ServiceStep(e: S.Event)

  /** New handles are new objects; destroyed handles are not used; requests are sent through handles only. */
  predicate Allowed(s: State, e: Event) {
    match e
    case Send(_, _, h) => h !in s.handles
    case Move(from, to) => from in s.handles && to !in s.handles
    case Destroy(h) => h in s.handles
    case CancelRequest(h) => h in s.handles
    case ServiceStep(se) => !se.Send? && !se.Cancel?
  }

  function Uses(s: State, k: nat): nat {
    if k in s.uses then s.uses[k] else 0
  }

  function Cancelled(s: State, k: nat): S.State {
    S.Step(s.svc, S.Cancel(S.NumberOf(k)))
  }

  function Step(s: State, e: Event): State
    requires Allowed(s, e)
  {
    match e
    case Send(target, msg, h) =>
      if !s.svc.alive then s
      else
        var k := |s.svc.futures|;
        State(S.Step(s.svc, S.Send(target, msg)), s.handles[h := Handle(k, true)], s.uses[k := 1])
    case Move(from, to) =>
      var m := s.handles[from];
      s.(handles := s.handles[from := m.(hasFuture := false)][to := m], uses := s.uses[m.request := Uses(s, m.request) + 1])
    case Destroy(h) =>
      var k := s.handles[h].request;
      State(if Uses(s, k) == 1 then Cancelled(s, k) else s.svc, s.handles - {h},
            s.uses[k := if Uses(s, k) > 0 then Uses(s, k) - 1 else 0])
    case CancelRequest(h) => s.(svc := Cancelled(s, s.handles[h].request))
    case ServiceStep(se) => s.(svc := S.Step(s.svc, se))
  }

  function Holders(handles: map<nat, Handle>, k: nat): set<nat> {
    set h | h in handles && handles[h].request == k
  }

  /** The use counts count the handles. */
  ghost predicate Counted(s: State) {
    && (forall k :: Uses(s, k) == |Holders(s.handles, k)|)
    && forall h :: h in s.handles ==> s.handles[h].request < |s.svc.futures|
  }

  /** Every outstanding request has a handle; a service that is not alive has no outstanding request. */
  ghost predicate Covered(s: State) {
    && (forall id :: id in s.svc.outstanding ==> Holders(s.handles, s.svc.outstanding[id]) != {})
    && (!s.svc.alive ==> s.svc.outstanding == map[])
  }

  /** At most one handle of a request holds its future. */
  ghost predicate OneFuture(s: State) {
    forall g, h :: g in s.handles && h in s.handles && g != h && s.handles[g].request == s.handles[h].request ==>
      !(s.handles[g].hasFuture && s.handles[h].hasFuture)
  }

  ghost predicate Good(s: State) {
    S.Conserved(s.svc) && Counted(s) && Covered(s) && OneFuture(s)
  }

  // ---- What the service does to outstanding requests ----

  lemma OutstandingShrinks(svc: S.State, e: S.Event)
    requires !e.Send? && S.Conserved(svc) && (!svc.alive ==> svc.outstanding == map[])
    ensures forall id :: id in S.Step(svc, e).outstanding ==>
              id in svc.outstanding && S.Step(svc, e).outstanding[id] == svc.outstanding[id]
    ensures |S.Step(svc, e).futures| == |svc.futures|
    ensures !S.Step(svc, e).alive ==> S.Step(svc, e).outstanding == map[]
    ensures e.Cancel? && svc.alive ==> e.reqId !in S.Step(svc, e).outstanding
  {
    hide S.IdFrom, S.IdBytes, S.SendReply, S.Connect, S.Disconnect, S.NumberOf;
    if e.Answer? { S.FramedBySending(svc, e); }
    ConnectFrame(svc);
  }

  lemma ConnectFrame(svc: S.State)
    ensures forall id, repAddr, pubAddr :: S.Connect(svc, id, repAddr, pubAddr).outstanding == svc.outstanding
                                           && S.Connect(svc, id, repAddr, pubAddr).futures == svc.futures
                                           && S.Connect(svc, id, repAddr, pubAddr).alive == svc.alive
    ensures forall id, pubAddr :: S.Disconnect(svc, id, pubAddr).outstanding == svc.outstanding
                                  && S.Disconnect(svc, id, pubAddr).futures == svc.futures
                                  && S.Disconnect(svc, id, pubAddr).alive == svc.alive
  {
    hide S.IdBytes;
  }

  lemma SendAddsOne(svc: S.State, target: Id, msg: Msg)
    requires S.Conserved(svc) && svc.alive
    ensures var r := S.Step(svc, S.Send(target, msg));
            && r.alive && |r.futures| == |svc.futures| + 1
            && forall id :: id in r.outstanding ==>
                 r.outstanding[id] == |svc.futures| || (id in svc.outstanding && r.outstanding[id] == svc.outstanding[id])
  {
    hide S.IdBytes, S.NumberOf, S.Settle, S.Paired;
    AbandonShrinks(svc, svc.nextId);
    S.AbandonFrame(svc, svc.nextId);
  }

  lemma AbandonShrinks(svc: S.State, id: U64)
    ensures forall id' :: id' in S.Abandon(svc, id).outstanding ==>
              id' in svc.outstanding && S.Abandon(svc, id).outstanding[id'] == svc.outstanding[id']
  {
  }

  // ---- Every step keeps the handles and the service together ----

  lemma HoldersAdd(handles: map<nat, Handle>, h: nat, x: Handle, k: nat)
    requires h !in handles
    ensures Holders(handles[h := x], k) == if x.request == k then Holders(handles, k) + {h} else Holders(handles, k)
    ensures h !in Holders(handles, k)
  {
  }

  lemma HoldersRemove(handles: map<nat, Handle>, h: nat, k: nat)
    requires h in handles
    ensures Holders(handles - {h}, k) == Holders(handles, k) - {h}
    ensures h in Holders(handles, k) <==> handles[h].request == k
  {
  }

  lemma HoldersMark(handles: map<nat, Handle>, h: nat, x: Handle, k: nat)
    requires h in handles && x.request == handles[h].request
    ensures Holders(handles[h := x], k) == Holders(handles, k)
  {
  }

  lemma SendIsGood(s: State, target: Id, msg: Msg, h: nat)
    requires Good(s) && h !in s.handles
    ensures Good(Step(s, Send(target, msg, h)))
  {
    hide S.Step, S.Conserved;
    if s.svc.alive {
      S.StepConserves(s.svc, S.Send(target, msg));
      SendAddsOne(s.svc, target, msg);
      var n := |s.svc.futures|;
      var r := Step(s, Send(target, msg, h));
      forall k
        ensures Uses(r, k) == |Holders(r.handles, k)|
        ensures Holders(s.handles, k) <= Holders(r.handles, k) && (k == n ==> h in Holders(r.handles, k))
      {
        HoldersAdd(s.handles, h, Handle(n, true), k);
        assert k == n ==> Holders(s.handles, n) == {};
        assert Uses(s, k) == |Holders(s.handles, k)|;
      }
    }
  }

  lemma MoveIsGood(s: State, from: nat, to: nat)
    requires Good(s) && from in s.handles && to !in s.handles
    ensures Good(Step(s, Move(from, to)))
  {
    hide S.Conserved, Counted, OneFuture, Holders;
    MoveCounts(s, from, to);
    MoveKeepsOneFuture(s, from, to);
  }

  lemma MoveCounts(s: State, from: nat, to: nat)
    requires Counted(s) && from in s.handles && to !in s.handles
    ensures Counted(Step(s, Move(from, to)))
    ensures forall k :: Holders(s.handles, k) <= Holders(Step(s, Move(from, to)).handles, k)
  {
    hide Holders;
    var r := Step(s, Move(from, to));
    var m := s.handles[from];
    forall k
      ensures Uses(r, k) == |Holders(r.handles, k)| && Holders(s.handles, k) <= Holders(r.handles, k)
    {
      HoldersMark(s.handles, from, m.(hasFuture := false), k);
      HoldersAdd(s.handles[from := m.(hasFuture := false)], to, m, k);
      assert Uses(s, k) == |Holders(s.handles, k)|;
    }
  }

  lemma MoveKeepsOneFuture(s: State, from: nat, to: nat)
    requires OneFuture(s) && from in s.handles && to !in s.handles
    ensures OneFuture(Step(s, Move(from, to)))
  {
  }

  lemma DestroyIsGood(s: State, h: nat)
    requires Good(s) && h in s.handles
    ensures Good(Step(s, Destroy(h)))
  {
    hide S.Step, S.Conserved, S.NumberOf, Holders;
    var r := Step(s, Destroy(h));
    var k0 := s.handles[h].request;
    S.StepConserves(s.svc, S.Cancel(S.NumberOf(k0)));
    OutstandingShrinks(s.svc, S.Cancel(S.NumberOf(k0)));
    forall k
      ensures Uses(r, k) == |Holders(r.handles, k)|
      ensures Holders(s.handles, k) != {} && Holders(r.handles, k) == {} ==> k == k0 && Uses(s, k0) == 1
    {
      HoldersRemove(s.handles, h, k);
      assert Uses(s, k) == |Holders(s.handles, k)|;
    }
    forall id | id in r.svc.outstanding
      ensures Holders(r.handles, r.svc.outstanding[id]) != {}
    {
      OutstandingNumber(s.svc, id);
    }
  }

  lemma OutstandingNumber(svc: S.State, id: U64)
    requires S.Conserved(svc) && id in svc.outstanding
    ensures S.NumberOf(svc.outstanding[id]) == id
  {
    hide S.NumberOf;
  }

  /** Every step: the use counts count the handles, every outstanding request keeps a handle, and at most one handle of a
      request holds its future. */
  lemma StepIsGood(s: State, e: Event)
    requires Good(s) && Allowed(s, e)
    ensures Good(Step(s, e))
  {
    hide S.Step, S.Conserved, S.NumberOf, Holders;
    match e {
      case Send(target, msg, h) => SendIsGood(s, target, msg, h);
      case Move(from, to) => MoveIsGood(s, from, to);
      case Destroy(h) => DestroyIsGood(s, h);
      case CancelRequest(h) =>
        S.StepConserves(s.svc, S.Cancel(S.NumberOf(s.handles[h].request)));
        OutstandingShrinks(s.svc, S.Cancel(S.NumberOf(s.handles[h].request)));
      case ServiceStep(se) =>
        S.StepConserves(s.svc, se);
        OutstandingShrinks(s.svc, se);
    }
  }

  /** What happens to the handles is for the service: a request, the cancelling of a request by the last handle to go or by any
      handle that is asked to, its own steps, and nothing when a handle is moved or others share its request. */
  lemma HandlesCallService(s: State, e: Event)
    requires Good(s) && Allowed(s, e)
    ensures Step(s, e).svc
         == match e
            case Send(target, msg, _) => S.Step(s.svc, S.Send(target, msg))
            case Move(_, _) => s.svc
            case Destroy(h) =>
              var k := s.handles[h].request;
              if Holders(s.handles, k) == {h} then S.Step(s.svc, S.Cancel(k % TWO64)) else s.svc
            case CancelRequest(h) => S.Step(s.svc, S.Cancel(s.handles[h].request % TWO64))
            case ServiceStep(se) => S.Step(s.svc, se)
  {
    hide S.SendRequest, S.Settle;
    if e.Destroy? {
      var k := s.handles[e.handle].request;
      assert e.handle in Holders(s.handles, k);
      assert Uses(s, k) == |Holders(s.handles, k)|;
      OneElement(Holders(s.handles, k), e.handle);
      hide S.Step;
    }
  }

  /** Below 2^64 requests, destroying a handle abandons its own request if no other handle is left and it is still
      outstanding, and no other request in any case. */
  lemma DestroyCancelsLast(s: State, h: nat, j: nat)
    requires Good(s) && h in s.handles && s.svc.alive && |s.svc.futures| <= TWO64 && j < |s.svc.futures|
    ensures var r := Step(s, Destroy(h));
            |r.svc.futures| == |s.svc.futures|
            && r.svc.futures[j] == if s.handles[h].request == j && Holders(s.handles, j) == {h} && s.svc.futures[j] == S.Pending
                                   then S.Abandoned else s.svc.futures[j]
  {
    hide S.Step, S.Conserved;
    var k := s.handles[h].request;
    assert h in Holders(s.handles, k);
    assert Uses(s, k) == |Holders(s.handles, k)|;
    OneElement(Holders(s.handles, k), h);
    CancelAbandons(s.svc, k, j);
  }

  lemma CancelAbandons(svc: S.State, k: nat, j: nat)
    requires S.Conserved(svc) && svc.alive && |svc.futures| <= TWO64 && k < |svc.futures| && j < |svc.futures|
    ensures var r := S.Step(svc, S.Cancel(S.NumberOf(k)));
            |r.futures| == |svc.futures|
            && r.futures[j] == if j == k && svc.futures[j] == S.Pending then S.Abandoned else svc.futures[j]
  {
    hide S.Settle, S.Paired;
    S.SettleAt(svc, S.Numbers(|svc.futures|), S.NumberOf(k), S.Abandoned, j);
    assert S.Numbers(|svc.futures|)[j] == S.NumberOf(j);
  }

  lemma OneElement(set_: set<nat>, x: nat)
    requires x in set_
    ensures |set_| == 1 <==> set_ == {x}
  {
    if |set_| == 1 {
      assert |set_ - {x}| == 0;
      assert set_ == {x} + (set_ - {x});
    }
  }

  ghost predicate IsRun(trace: seq<State>, events: seq<Event>, self: S.Self) {
    && |trace| == |events| + 1 && trace[0] == State(S.Initial(self), map[], map[])
    && forall i :: 0 <= i < |events| ==> Allowed(trace[i], events[i]) && trace[i + 1] == Step(trace[i], events[i])
  }

  /** In every run, after any chain of moves: every outstanding request has a handle that still exists. */
  lemma {:induction false} OutstandingIsHeld(trace: seq<State>, events: seq<Event>, self: S.Self, i: nat)
    requires IsRun(trace, events, self) && i <= |events|
    ensures Good(trace[i])
  {
    if i == 0 {
      assert forall k :: Holders(map[], k) == {};
    } else {
      OutstandingIsHeld(trace, events, self, i - 1);
      StepIsGood(trace[i - 1], events[i - 1]);
      hide Good, Step;
    }
  }

  // ---- The handles in place ----

  /** A request number and how many handles share it. */
  class SharedNumber {
    const value: U64
    var useCount: nat

    constructor (value: U64)
      ensures this.value == value && useCount == 1
    {
      this.value, useCount := value, 1;
    }
  }

  class ZmfInReply {
    const requestId: SharedNumber
    const zmqService: ZmqService
    /** The position of the future, while this handle holds it. */
    var future: Option<nat>

    constructor (requestId: U64, future: nat, zmqService: ZmqService)
      ensures this.zmqService == zmqService && this.future == Some(future)
      ensures fresh(this.requestId) && this.requestId.value == requestId && this.requestId.useCount == 1
    {
      this.requestId := new SharedNumber(requestId);
      this.future, this.zmqService := Some(future), zmqService;
    }

    /** Takes the future over and shares the number, which the other handle keeps as well. */
    constructor Moved(other: ZmfInReply)
      modifies other`future, other.requestId`useCount
      ensures requestId == other.requestId && zmqService == other.zmqService
      ensures future == old(other.future) && other.future == None
      ensures requestId.useCount == old(other.requestId.useCount) + 1
    {
      requestId, zmqService, future := other.requestId, other.zmqService, other.future;
      new;
      other.future := None;
      requestId.useCount := requestId.useCount + 1;
    }

    /** The destructor: the last handle of the number cancels the request. */
    method Destroy()
      requires requestId.useCount > 0 && S.Conserved(zmqService.Abs())
      modifies requestId`useCount, zmqService
      ensures requestId.useCount == old(requestId.useCount) - 1
      ensures zmqService.Abs() == if old(requestId.useCount) == 1
                                  then S.Step(old(zmqService.Abs()), S.Cancel(requestId.value))
                                  else old(zmqService.Abs())
    {
      if requestId.useCount == 1 {
        zmqService.CancelRequest(requestId.value);
      }
      requestId.useCount := requestId.useCount - 1;
    }

    method CancelRequest()
      requires S.Conserved(zmqService.Abs())
      modifies zmqService
      ensures zmqService.Abs() == S.Step(old(zmqService.Abs()), S.Cancel(requestId.value))
    {
      zmqService.CancelRequest(requestId.value);
    }
  }

  /** Issues a request and hands out its handle. */
  method SendRequest(service: ZmqService, target: Id, msg: Msg) returns (reply: Option<ZmfInReply>)
    requires S.Conserved(service.Abs())
    modifies service
    ensures service.Abs() == S.Step(old(service.Abs()), S.Send(target, msg))
    ensures reply.Some? == old(service.alive)
    ensures reply.Some? ==>
              && fresh(reply.value) && reply.value.zmqService == service
              && reply.value.requestId.value == old(service.nextRequestId) && reply.value.requestId.useCount == 1
              && reply.value.future == Some(|old(service.futures)|)
  {
    hide S.Step, S.Conserved;
    var issued := service.SendRequest(target, msg);
    if issued.None? { return None; }
    var handle := new ZmfInReply(issued.value.0, issued.value.1, service);
    reply := Some(handle);
  }
}
