/** The locks of the messaging service: any number of threads run any mix of its operations, one lock or unlock at a time,
    and never wait in a circle. */
module Locks {
  datatype Lock = Ids | Requests | Replies | SocketsReq | MembershipQueue | SubscriptionQueue | NotifySend | PubSocket

  datatype Op = Acquire(l: Lock) | Release(l: Lock)

  /** The operations, with the branches they may take: whether the peer has a socket, whether the request waits for a
      reply, whether the sockets can be bound, and whether a request is a system request, which is answered at once. */
  datatype Operation =
    | PeerJoin(known: bool) | PeerLeave(known: bool)
    | Subscribe | Unsubscribe | Publish
    | SendRequest(known: bool)
    | SendReply(found: bool)
    | CancelRequest | OnDisable | Start(binds: bool) | Stop
    | ApplyMembershipChange | ApplySubscriptionChange
    | RequestReceived(system: bool, found: bool) | ReplyReceived | HelloReceived(known: bool)

  function Locked(l: Lock): seq<Op> {
    [Acquire(l), Release(l)]
  }

  function Under(l: Lock, body: seq<Op>): seq<Op> {
    [Acquire(l)] + body + [Release(l)]
  }

  function Connect(known: bool): seq<Op> {
    Under(SocketsReq, if known then [] else Locked(MembershipQueue) + Locked(NotifySend))
  }

  function Reply(found: bool): seq<Op> {
    Locked(Replies) + if found then Locked(SocketsReq) else []
  }

  /** The lock steps of an operation. */
  function Program(o: Operation): seq<Op> {
    match o
    case PeerJoin(known) => Connect(known)
    case PeerLeave(known) => Connect(!known)
    case Subscribe => Locked(SubscriptionQueue) + Locked(NotifySend)
    case Unsubscribe => Locked(SubscriptionQueue) + Locked(NotifySend)
    case Publish => Locked(PubSocket)
    case SendRequest(known) => Locked(Ids) + Locked(Requests) + Under(SocketsReq, if known then [] else Locked(Requests))
    case SendReply(found) => Reply(found)
    case CancelRequest => Locked(Requests)
    case OnDisable => Locked(Requests) + Locked(Replies)
    case Start(binds) => if binds then [] else Locked(SocketsReq)
    case Stop =>
      Locked(NotifySend) + Locked(SocketsReq) + Locked(SocketsReq) + Locked(Requests) + Locked(MembershipQueue)
      + Locked(SubscriptionQueue) + Locked(Replies)
    case ApplyMembershipChange => Locked(MembershipQueue)
    case ApplySubscriptionChange => Locked(SubscriptionQueue)
    case RequestReceived(system, found) => Locked(Replies) + if system then Reply(found) else []
    case ReplyReceived => Locked(Requests)
    case HelloReceived(known) => Connect(known)
  }

  function Programs(os: seq<Operation>): seq<Op> {
    if os == [] then [] else Program(os[0]) + Programs(os[1..])
  }

  // ---- Threads ----

  datatype Thread = Thread(rest: seq<Op>, held: set<Lock>)

  type System = seq<Thread>

  /** The locks are plain mutexes: taking one that any thread holds, the own one included, waits. */
  predicate Free(s: System, l: Lock) {
    forall j :: 0 <= j < |s| ==> l !in s[j].held
  }

  predicate Done(t: Thread) {
    t.rest == []
  }

  predicate CanStep(s: System, i: nat)
    requires i < |s|
  {
    !Done(s[i]) && (s[i].rest[0].Acquire? ==> Free(s, s[i].rest[0].l))
  }

  function Advance(t: Thread): Thread
    requires !Done(t)
  {
    match t.rest[0]
    case Acquire(l) => Thread(t.rest[1..], t.held + {l})
    case Release(l) => Thread(t.rest[1..], t.held - {l})
  }

  function Next(s: System, i: nat): System
    requires i < |s| && CanStep(s, i)
  {
    s[i := Advance(s[i])]
  }

  ghost predicate Fresh(s: System) {
    forall i :: 0 <= i < |s| ==> s[i].held == {} && exists os :: s[i].rest == Programs(os)
  }

  ghost predicate IsRun(trace: seq<System>, schedule: seq<nat>) {
    && |trace| == |schedule| + 1 && Fresh(trace[0])
    && forall k :: 0 <= k < |schedule| ==>
         schedule[k] < |trace[k]| && CanStep(trace[k], schedule[k]) && trace[k + 1] == Next(trace[k], schedule[k])
  }

  /** Thread i waits for a lock that thread j holds. */
  predicate WaitsFor(s: System, i: nat, j: nat)
    requires i < |s| && j < |s|
  {
    s[i].rest != [] && s[i].rest[0].Acquire? && s[i].rest[0].l in s[j].held
  }

  // ---- The discipline ----

  /** Only the lock of the request sockets may be held while another lock is taken. */
  predicate Before(h: Lock, l: Lock) {
    h == SocketsReq && l != SocketsReq
  }

  /** Holding these locks, the thread takes locks in order, releases only what it holds, and ends up holding those. */
  predicate Disciplined(rest: seq<Op>, held: set<Lock>, end: set<Lock>)
    decreases |rest|
  {
    if rest == [] then held == end
    else match rest[0]
      case Acquire(l) => (forall h :: h in held ==> Before(h, l)) && Disciplined(rest[1..], held + {l}, end)
      case Release(l) => l in held && Disciplined(rest[1..], held - {l}, end)
  }

  lemma {:induction false} DisciplinedAppend(a: seq<Op>, b: seq<Op>, held: set<Lock>, mid: set<Lock>, end: set<Lock>)
    requires Disciplined(a, held, mid) && Disciplined(b, mid, end)
    ensures Disciplined(a + b, held, end)
    decreases |a|
  {
    if a == [] {
      assert a + b == b;
    } else {
      assert (a + b)[1..] == a[1..] + b;
      DisciplinedAppend(a[1..], b, if a[0].Acquire? then held + {a[0].l} else held - {a[0].l}, mid, end);
    }
  }

  lemma NothingIsDisciplined(held: set<Lock>)
    ensures Disciplined([], held, held)
  {
  }

  lemma LockedIsDisciplined(l: Lock, held: set<Lock>)
    requires l !in held && forall h :: h in held ==> Before(h, l)
    ensures Disciplined(Locked(l), held, held)
  {
    assert Locked(l)[1..] == [Release(l)] && [Release(l)][1..] == [];
    assert held + {l} - {l} == held;
    assert Disciplined([], held, held);
    assert Disciplined([Release(l)], held + {l}, held);
  }

  lemma UnderIsDisciplined(body: seq<Op>)
    requires Disciplined(body, {SocketsReq}, {SocketsReq})
    ensures Disciplined(Under(SocketsReq, body), {}, {})
  {
    var l := SocketsReq;
    assert [Acquire(l)][1..] == [] && [Release(l)][1..] == [];
    assert {} + {l} == {l} && {l} - {l} == {};
    assert Disciplined([], {l}, {l}) && Disciplined([], {}, {});
    assert Disciplined([Acquire(l)], {}, {l}) && Disciplined([Release(l)], {l}, {});
    DisciplinedAppend([Acquire(l)], body, {}, {l}, {l});
    DisciplinedAppend([Acquire(l)] + body, [Release(l)], {}, {l}, {});
  }

  /** Both in turn. */
  lemma ThenIsDisciplined(a: seq<Op>, b: seq<Op>)
    requires Disciplined(a, {}, {}) && Disciplined(b, {}, {})
    ensures Disciplined(a + b, {}, {})
  {
    DisciplinedAppend(a, b, {}, {}, {});
  }

  lemma ConnectIsDisciplined(known: bool)
    ensures Disciplined(Connect(known), {}, {})
  {
    if known {
      assert Disciplined([], {SocketsReq}, {SocketsReq});
      UnderIsDisciplined([]);
    } else {
      LockedIsDisciplined(MembershipQueue, {SocketsReq});
      LockedIsDisciplined(NotifySend, {SocketsReq});
      hide Disciplined;
      DisciplinedAppend(Locked(MembershipQueue), Locked(NotifySend), {SocketsReq}, {SocketsReq}, {SocketsReq});
      UnderIsDisciplined(Locked(MembershipQueue) + Locked(NotifySend));
    }
  }

  lemma EachLockedIsDisciplined()
    ensures forall l :: Disciplined(Locked(l), {}, {})
    ensures Disciplined([], {}, {})
  {
    forall l
      ensures Disciplined(Locked(l), {}, {})
    {
      LockedIsDisciplined(l, {});
    }
  }

  lemma ReplyIsDisciplined(found: bool)
    ensures Disciplined(Reply(found), {}, {})
  {
    EachLockedIsDisciplined();
    hide Disciplined;
    ThenIsDisciplined(Locked(Replies), if found then Locked(SocketsReq) else []);
  }

  lemma SendRequestIsDisciplined(known: bool)
    ensures Disciplined(Program(SendRequest(known)), {}, {})
  {
    hide Disciplined, Locked;
    EachLockedIsDisciplined();
    NothingIsDisciplined({SocketsReq});
    LockedIsDisciplined(Requests, {SocketsReq});
    UnderIsDisciplined(if known then [] else Locked(Requests));
    ThenIsDisciplined(Locked(Ids), Locked(Requests));
    hide Under;
    ThenIsDisciplined(Locked(Ids) + Locked(Requests), Under(SocketsReq, if known then [] else Locked(Requests)));
  }

  lemma StopIsDisciplined()
    ensures Disciplined(Program(Stop), {}, {})
  {
    EachLockedIsDisciplined();
    hide Disciplined;
    var p := Locked(NotifySend) + Locked(SocketsReq);
    ThenIsDisciplined(Locked(NotifySend), Locked(SocketsReq));
    ThenIsDisciplined(p, Locked(SocketsReq));
    ThenIsDisciplined(p + Locked(SocketsReq), Locked(Requests));
    ThenIsDisciplined(p + Locked(SocketsReq) + Locked(Requests), Locked(MembershipQueue));
    ThenIsDisciplined(p + Locked(SocketsReq) + Locked(Requests) + Locked(MembershipQueue), Locked(SubscriptionQueue));
    ThenIsDisciplined(p + Locked(SocketsReq) + Locked(Requests) + Locked(MembershipQueue) + Locked(SubscriptionQueue),
                      Locked(Replies));
  }

  lemma ProgramIsDisciplined(o: Operation)
    ensures Disciplined(Program(o), {}, {})
  {
    EachLockedIsDisciplined();
    hide Disciplined, Locked, Under;
    match o {
      case PeerJoin(known) => ConnectIsDisciplined(known);
      case PeerLeave(known) => ConnectIsDisciplined(!known);
      case HelloReceived(known) => ConnectIsDisciplined(known);
      case SendRequest(known) => SendRequestIsDisciplined(known);
      case SendReply(found) => ReplyIsDisciplined(found);
      case RequestReceived(system, found) =>
        ReplyIsDisciplined(found);
        ThenIsDisciplined(Locked(Replies), if system then Reply(found) else []);
      case OnDisable => ThenIsDisciplined(Locked(Requests), Locked(Replies));
      case Stop => StopIsDisciplined();
      case Subscribe => ThenIsDisciplined(Locked(SubscriptionQueue), Locked(NotifySend));
      case Unsubscribe => ThenIsDisciplined(Locked(SubscriptionQueue), Locked(NotifySend));
      case _ =>
    }
  }

  lemma {:induction false} ProgramsAreDisciplined(os: seq<Operation>)
    ensures Disciplined(Programs(os), {}, {})
  {
    if os != [] {
      ProgramIsDisciplined(os[0]);
      ProgramsAreDisciplined(os[1..]);
      ThenIsDisciplined(Program(os[0]), Programs(os[1..]));
      hide Program;
    }
  }

  // ---- What is locked for what ----

  /** Every lock the steps take. */
  function Taken(ops: seq<Op>): set<Lock> {
    if ops == [] then {} else (if ops[0].Acquire? then {ops[0].l} else {}) + Taken(ops[1..])
  }

  /** Every pair of a lock that is held and one that is taken under it. */
  function Nested(ops: seq<Op>, held: set<Lock>): set<(Lock, Lock)>
    decreases |ops|
  {
    if ops == [] then {}
    else match ops[0]
      case Acquire(l) => (set h | h in held :: (h, l)) + Nested(ops[1..], held + {l})
      case Release(l) => Nested(ops[1..], held - {l})
  }

  lemma {:induction false} TakenAppend(a: seq<Op>, b: seq<Op>)
    ensures Taken(a + b) == Taken(a) + Taken(b)
  {
    if a == [] {
      assert a + b == b;
    } else {
      TakenAppend(a[1..], b);
      assert (a + b)[1..] == a[1..] + b;
    }
  }

  lemma {:induction false} NestedAppend(a: seq<Op>, b: seq<Op>, held: set<Lock>, mid: set<Lock>)
    requires Disciplined(a, held, mid)
    ensures Nested(a + b, held) == Nested(a, held) + Nested(b, mid)
    decreases |a|
  {
    if a == [] {
      assert a + b == b;
    } else {
      assert (a + b)[1..] == a[1..] + b;
      NestedAppend(a[1..], b, if a[0].Acquire? then held + {a[0].l} else held - {a[0].l}, mid);
    }
  }

  lemma LockedTakes(l: Lock, held: set<Lock>)
    requires l !in held
    ensures Taken(Locked(l)) == {l} && Nested(Locked(l), held) == set h | h in held :: (h, l)
    ensures Taken([]) == {} && Nested([], held) == {}
  {
    assert Locked(l)[1..] == [Release(l)] && [Release(l)][1..] == [];
    assert Taken([Release(l)]) == {} && Nested([Release(l)], held + {l}) == {};
  }

  lemma UnderTakes(body: seq<Op>)
    requires Disciplined(body, {SocketsReq}, {SocketsReq})
    ensures Taken(Under(SocketsReq, body)) == {SocketsReq} + Taken(body)
    ensures Nested(Under(SocketsReq, body), {}) == Nested(body, {SocketsReq})
  {
    var l := SocketsReq;
    assert ([Acquire(l)] + body + [Release(l)])[1..] == body + [Release(l)];
    TakenAppend(body, [Release(l)]);
    NestedAppend(body, [Release(l)], {l}, {l});
    assert {} + {l} == {l};
    assert [Release(l)][1..] == [] && Taken([Release(l)]) == {} && Nested([Release(l)], {l}) == {};
  }

  /** What two programs in turn take, holding nothing in between. */
  lemma ThenTakes(a: seq<Op>, b: seq<Op>)
    requires Disciplined(a, {}, {})
    ensures Taken(a + b) == Taken(a) + Taken(b) && Nested(a + b, {}) == Nested(a, {}) + Nested(b, {})
  {
    TakenAppend(a, b);
    NestedAppend(a, b, {}, {});
  }

  lemma ConnectTakes(known: bool)
    ensures Taken(Connect(known)) == if known then {SocketsReq} else {SocketsReq, MembershipQueue, NotifySend}
    ensures Nested(Connect(known), {})
         == if known then {} else {(SocketsReq, MembershipQueue), (SocketsReq, NotifySend)}
  {
    NothingIsDisciplined({SocketsReq});
    LockedIsDisciplined(MembershipQueue, {SocketsReq});
    LockedIsDisciplined(NotifySend, {SocketsReq});
    LockedTakes(MembershipQueue, {SocketsReq});
    LockedTakes(NotifySend, {SocketsReq});
    hide Disciplined, Taken, Nested, Under, Locked;
    DisciplinedAppend(Locked(MembershipQueue), Locked(NotifySend), {SocketsReq}, {SocketsReq}, {SocketsReq});
    TakenAppend(Locked(MembershipQueue), Locked(NotifySend));
    NestedAppend(Locked(MembershipQueue), Locked(NotifySend), {SocketsReq}, {SocketsReq});
    UnderTakes(if known then [] else Locked(MembershipQueue) + Locked(NotifySend));
  }

  lemma IdsAndRequests()
    ensures Disciplined(Locked(Ids) + Locked(Requests), {}, {})
    ensures Taken(Locked(Ids) + Locked(Requests)) == {Ids, Requests} && Nested(Locked(Ids) + Locked(Requests), {}) == {}
  {
    EachLockedIsDisciplined();
    EachLockedTakes();
    hide Disciplined, Taken, Nested, Locked;
    ThenIsDisciplined(Locked(Ids), Locked(Requests));
    ThenTakes(Locked(Ids), Locked(Requests));
  }

  lemma RequestsUnderSockets()
    ensures Taken(Under(SocketsReq, Locked(Requests))) == {SocketsReq, Requests}
    ensures Nested(Under(SocketsReq, Locked(Requests)), {}) == {(SocketsReq, Requests)}
    ensures Taken(Under(SocketsReq, [])) == {SocketsReq} && Nested(Under(SocketsReq, []), {}) == {}
  {
    NothingIsDisciplined({SocketsReq});
    LockedIsDisciplined(Requests, {SocketsReq});
    LockedTakes(Requests, {SocketsReq});
    hide Disciplined, Taken, Nested, Under, Locked;
    UnderTakes(Locked(Requests));
    UnderTakes([]);
  }

  lemma SendRequestTakes(known: bool)
    ensures Taken(Program(SendRequest(known))) == {Ids, Requests, SocketsReq}
    ensures Nested(Program(SendRequest(known)), {}) == if known then {} else {(SocketsReq, Requests)}
  {
    hide Disciplined, Taken, Nested, Under, Locked;
    IdsAndRequests();
    RequestsUnderSockets();
    ThenTakes(Locked(Ids) + Locked(Requests), Under(SocketsReq, if known then [] else Locked(Requests)));
  }

  lemma EachLockedTakes()
    ensures forall l :: Taken(Locked(l)) == {l} && Nested(Locked(l), {}) == {}
    ensures Taken([]) == {} && Nested([], {}) == {}
  {
    forall l
      ensures Taken(Locked(l)) == {l} && Nested(Locked(l), {}) == {}
    {
      LockedTakes(l, {});
    }
  }

  lemma StopTakes()
    ensures Taken(Program(Stop)) == {NotifySend, SocketsReq, Requests, MembershipQueue, SubscriptionQueue, Replies}
    ensures Nested(Program(Stop), {}) == {}
  {
    EachLockedIsDisciplined();
    EachLockedTakes();
    hide Disciplined, Taken, Nested, Locked;
    var p := Locked(NotifySend) + Locked(SocketsReq);
    ThenIsDisciplined(Locked(NotifySend), Locked(SocketsReq));
    ThenIsDisciplined(p, Locked(SocketsReq));
    ThenIsDisciplined(p + Locked(SocketsReq), Locked(Requests));
    ThenIsDisciplined(p + Locked(SocketsReq) + Locked(Requests), Locked(MembershipQueue));
    ThenIsDisciplined(p + Locked(SocketsReq) + Locked(Requests) + Locked(MembershipQueue), Locked(SubscriptionQueue));
    ThenTakes(Locked(NotifySend), Locked(SocketsReq));
    ThenTakes(p, Locked(SocketsReq));
    ThenTakes(p + Locked(SocketsReq), Locked(Requests));
    ThenTakes(p + Locked(SocketsReq) + Locked(Requests), Locked(MembershipQueue));
    ThenTakes(p + Locked(SocketsReq) + Locked(Requests) + Locked(MembershipQueue), Locked(SubscriptionQueue));
    ThenTakes(p + Locked(SocketsReq) + Locked(Requests) + Locked(MembershipQueue) + Locked(SubscriptionQueue),
              Locked(Replies));
  }

  /** A peer gains or loses its socket. */
  predicate ChangesPeers(o: Operation) {
    o == PeerJoin(false) || o == PeerLeave(true) || o == HelloReceived(false)
  }

  /** Which operations take a lock, lock by lock: those that touch what it guards. */
  lemma LockedExactlyForUse(o: Operation)
    ensures var taken := Taken(Program(o));
            && (Ids in taken <==> o.SendRequest?)
            && (Requests in taken <==> o.SendRequest? || o.CancelRequest? || o.ReplyReceived? || o.OnDisable? || o.Stop?)
            && (Replies in taken <==> o.RequestReceived? || o.SendReply? || o.OnDisable? || o.Stop?)
            && (SocketsReq in taken <==>
                  o.PeerJoin? || o.PeerLeave? || o.HelloReceived? || o.SendRequest? || o.Stop? || o == Start(false)
                  || o == SendReply(true) || o == RequestReceived(true, true))
            && (MembershipQueue in taken <==> ChangesPeers(o) || o.ApplyMembershipChange? || o.Stop?)
            && (SubscriptionQueue in taken <==> o.Subscribe? || o.Unsubscribe? || o.ApplySubscriptionChange? || o.Stop?)
            && (NotifySend in taken <==> ChangesPeers(o) || o.Subscribe? || o.Unsubscribe? || o.Stop?)
            && (PubSocket in taken <==> o.Publish?)
  {
    ProgramTakes(o);
    hide Program, Taken;
  }

  /** A second lock is taken in two places only, both under the lock of the request sockets: for the queue and the token of a
      peer that gains or loses its socket, and for the promise of a request whose target has none. */
  lemma NestedExactlyForPeers(o: Operation)
    ensures Nested(Program(o), {})
         == if ChangesPeers(o) then {(SocketsReq, MembershipQueue), (SocketsReq, NotifySend)}
            else if o == SendRequest(false) then {(SocketsReq, Requests)}
            else {}
  {
    ProgramTakes(o);
    hide Program, Nested;
  }

  lemma ReplyTakes(found: bool)
    ensures Taken(Reply(found)) == if found then {Replies, SocketsReq} else {Replies}
    ensures Nested(Reply(found), {}) == {}
  {
    EachLockedIsDisciplined();
    EachLockedTakes();
    hide Disciplined, Taken, Nested, Locked;
    ThenTakes(Locked(Replies), if found then Locked(SocketsReq) else []);
  }

  lemma ProgramTakes(o: Operation)
    ensures Taken(Program(o))
         == match o
            case PeerJoin(known) => if known then {SocketsReq} else {SocketsReq, MembershipQueue, NotifySend}
            case PeerLeave(known) => if known then {SocketsReq, MembershipQueue, NotifySend} else {SocketsReq}
            case HelloReceived(known) => if known then {SocketsReq} else {SocketsReq, MembershipQueue, NotifySend}
            case Subscribe => {SubscriptionQueue, NotifySend}
            case Unsubscribe => {SubscriptionQueue, NotifySend}
            case Publish => {PubSocket}
            case SendRequest(_) => {Ids, Requests, SocketsReq}
            case SendReply(found) => if found then {Replies, SocketsReq} else {Replies}
            case CancelRequest => {Requests}
            case OnDisable => {Requests, Replies}
            case Start(binds) => if binds then {} else {SocketsReq}
            case Stop => {NotifySend, SocketsReq, Requests, MembershipQueue, SubscriptionQueue, Replies}
            case ApplyMembershipChange => {MembershipQueue}
            case ApplySubscriptionChange => {SubscriptionQueue}
            case RequestReceived(system, found) => if system && found then {Replies, SocketsReq} else {Replies}
            case ReplyReceived => {Requests}
    ensures Nested(Program(o), {})
         == if ChangesPeers(o) then {(SocketsReq, MembershipQueue), (SocketsReq, NotifySend)}
            else if o == SendRequest(false) then {(SocketsReq, Requests)}
            else {}
  {
    EachLockedIsDisciplined();
    EachLockedTakes();
    hide Disciplined, Taken, Nested, Locked, Under, Reply, Connect;
    match o {
      case PeerJoin(known) => ConnectTakes(known);
      case PeerLeave(known) => ConnectTakes(!known);
      case HelloReceived(known) => ConnectTakes(known);
      case SendRequest(known) => SendRequestTakes(known);
      case SendReply(found) => ReplyTakes(found);
      case RequestReceived(system, found) =>
        ReplyTakes(found);
        ThenTakes(Locked(Replies), if system then Reply(found) else []);
      case OnDisable => ThenTakes(Locked(Requests), Locked(Replies));
      case Stop => StopTakes();
      case Subscribe => ThenTakes(Locked(SubscriptionQueue), Locked(NotifySend));
      case Unsubscribe => ThenTakes(Locked(SubscriptionQueue), Locked(NotifySend));
      case _ =>
    }
  }

  // ---- Every reachable state ----

  /** Every thread keeps the discipline, and no lock is held twice. */
  ghost predicate Sound(s: System) {
    && (forall i :: 0 <= i < |s| ==> Disciplined(s[i].rest, s[i].held, {}))
    && forall i, j, l :: 0 <= i < |s| && 0 <= j < |s| && l in s[i].held && l in s[j].held ==> i == j
  }

  lemma FreshIsSound(s: System)
    requires Fresh(s)
    ensures Sound(s)
  {
    forall i | 0 <= i < |s|
      ensures Disciplined(s[i].rest, s[i].held, {})
    {
      var os :| s[i].rest == Programs(os);
      ProgramsAreDisciplined(os);
    }
  }

  lemma NextKeepsSound(s: System, i: nat)
    requires Sound(s) && i < |s| && CanStep(s, i)
    ensures Sound(Next(s, i)) && |Next(s, i)| == |s|
  {
    assert Disciplined(s[i].rest, s[i].held, {});
    assert Disciplined(Advance(s[i]).rest, Advance(s[i]).held, {});
    hide Disciplined;
  }

  lemma {:induction false} RunKeepsSound(trace: seq<System>, schedule: seq<nat>, k: nat)
    requires IsRun(trace, schedule) && k <= |schedule|
    ensures Sound(trace[k]) && |trace[k]| == |trace[0]|
  {
    if k == 0 {
      FreshIsSound(trace[0]);
    } else {
      RunKeepsSound(trace, schedule, k - 1);
      NextKeepsSound(trace[k - 1], schedule[k - 1]);
      hide Sound, Next, CanStep;
    }
  }

  /** A thread that holds any lock but that of the request sockets is about to release one. */
  lemma HolderReleases(s: System, j: nat, l: Lock)
    requires Sound(s) && j < |s| && l in s[j].held && l != SocketsReq
    ensures !Done(s[j]) && s[j].rest[0].Release? && CanStep(s, j)
  {
    assert Disciplined(s[j].rest, s[j].held, {});
  }

  /** A thread that holds a lock and waits holds the lock of the request sockets and waits for another. */
  lemma HolderWaits(s: System, j: nat, l: Lock)
    requires Sound(s) && j < |s| && l in s[j].held
    ensures !Done(s[j]) && (s[j].rest[0].Acquire? ==> s[j].rest[0].l != SocketsReq)
  {
    assert Disciplined(s[j].rest, s[j].held, {});
  }

  /** What a waiting thread waits for may be held by a waiting thread; what that one waits for is not. */
  lemma TwoWaitsAtMost(s: System, a: nat, b: nat, c: nat)
    requires Sound(s) && a < |s| && b < |s| && c < |s| && WaitsFor(s, a, b) && WaitsFor(s, b, c)
    ensures s[c].rest != [] && s[c].rest[0].Release?
  {
    hide Sound, Disciplined;
    HolderWaits(s, b, s[a].rest[0].l);
    HolderReleases(s, c, s[b].rest[0].l);
  }

  /** A circle of waiting threads: each waits for the next one, the last for the first. */
  ghost predicate Circle(s: System, circle: seq<nat>) {
    && circle != [] && (forall k :: 0 <= k < |circle| ==> circle[k] < |s|)
    && forall k, next :: 0 <= k < |circle| && 0 <= next < |circle| && next == (k + 1) % |circle| ==>
         WaitsFor(s, circle[k], circle[next])
  }

  lemma CircleStep(s: System, circle: seq<nat>, k: nat) returns (next: nat)
    requires Circle(s, circle) && k < |circle|
    ensures next < |circle| && circle[k] < |s| && circle[next] < |s| && WaitsFor(s, circle[k], circle[next])
    ensures s[circle[k]].rest != [] && s[circle[k]].rest[0].Acquire?
  {
    next := (k + 1) % |circle|;
  }

  lemma SoundHasNoCircle(s: System, circle: seq<nat>)
    requires Sound(s)
    ensures !Circle(s, circle)
  {
    hide Sound, WaitsFor;
    if Circle(s, circle) {
      var y := CircleStep(s, circle, 0);
      var z := CircleStep(s, circle, y);
      var last := CircleStep(s, circle, z);
      hide Circle;
      TwoWaitsAtMost(s, circle[0], circle[y], circle[z]);
    }
  }

  /** In no reachable state is there a circle of waiting threads, not even of one thread that waits for itself. */
  lemma NoCircle(trace: seq<System>, schedule: seq<nat>, k: nat, circle: seq<nat>)
    requires IsRun(trace, schedule) && k <= |schedule|
    ensures !Circle(trace[k], circle)
  {
    RunKeepsSound(trace, schedule, k);
    SoundHasNoCircle(trace[k], circle);
  }

  /** In every reachable state that is not finished some thread can go on, and when all are finished no lock is held. */
  lemma SomeThreadGoesOn(trace: seq<System>, schedule: seq<nat>, k: nat)
    requires IsRun(trace, schedule) && k <= |schedule|
    ensures || (exists i :: 0 <= i < |trace[k]| && CanStep(trace[k], i))
            || (forall i :: 0 <= i < |trace[k]| ==> Done(trace[k][i]) && trace[k][i].held == {})
  {
    RunKeepsSound(trace, schedule, k);
    var s := trace[k];
    hide IsRun;
    if i :| 0 <= i < |s| && !Done(s[i]) {
      WaitersEnd(s, i);
    } else {
      forall i | 0 <= i < |s|
        ensures s[i].held == {}
      {
        assert Disciplined(s[i].rest, s[i].held, {});
      }
    }
  }

  /** Following a thread to the holder of what it waits for, at most twice, finds one that can go on. */
  lemma WaitersEnd(s: System, i: nat)
    requires Sound(s) && i < |s| && !Done(s[i])
    ensures exists j :: 0 <= j < |s| && CanStep(s, j)
  {
    hide Sound;
    if !CanStep(s, i) {
      var j :| 0 <= j < |s| && s[i].rest[0].l in s[j].held;
      HolderWaits(s, j, s[i].rest[0].l);
      if !CanStep(s, j) {
        var m :| 0 <= m < |s| && s[j].rest[0].l in s[m].held;
        HolderReleases(s, m, s[j].rest[0].l);
      }
    }
  }

  /** The steps that are left. */
  function Left(s: System): nat {
    if s == [] then 0 else Left(s[..|s| - 1]) + |s[|s| - 1].rest|
  }

  lemma {:induction false} NextLeavesLess(s: System, i: nat)
    requires i < |s| && CanStep(s, i)
    ensures Left(Next(s, i)) + 1 == Left(s)
  {
    var n := |s| - 1;
    if i < n {
      assert Next(s, i)[..n] == s[..n][i := Advance(s[i])];
      LeftUpdate(s[..n], i, Advance(s[i]));
    } else {
      assert Next(s, i)[..n] == s[..n];
    }
  }

  lemma {:induction false} LeftUpdate(s: System, i: nat, t: Thread)
    requires i < |s|
    ensures Left(s[i := t]) + |s[i].rest| == Left(s) + |t.rest|
  {
    var n := |s| - 1;
    if i < n {
      assert s[i := t][..n] == s[..n][i := t];
      LeftUpdate(s[..n], i, t);
    } else {
      assert s[i := t][..n] == s[..n];
    }
  }

  /** No run goes on for ever: it has at most as many steps as the programs have. */
  lemma {:induction false} RunsEnd(trace: seq<System>, schedule: seq<nat>, k: nat)
    requires IsRun(trace, schedule) && k <= |schedule|
    ensures Left(trace[k]) + k == Left(trace[0])
  {
    hide Next, CanStep, Left, Fresh;
    if k > 0 {
      RunsEnd(trace, schedule, k - 1);
      NextLeavesLess(trace[k - 1], schedule[k - 1]);
    }
  }
}
