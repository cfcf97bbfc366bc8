/** The messaging service with its threads interleaved: an operation is cut where it lets go of a lock, and the pieces of
    any number of operations run in any order. One epoch between start and stop. */
module Sections {
  import opened Types
  import S = Service

  /** Where a thread is inside an operation: what it will do next. */
  datatype Flight =
    | Numbered(id: U64, target: Id, msg: Msg)
    | Registered(id: U64, target: Id, msg: Msg)
    | Replying(to: Id, reqId: U64, msg: Msg)
    | Disabling
    | SocketChanged(change: S.Change<Addr>)
    | MemberQueued
    | TopicQueued

  /** The shared state, the numbers of the futures, how many numbers were taken, who holds the lock of the request
      sockets over several pieces, and the threads inside operations. */
  datatype State = State(
    s: S.State,
    numbers: seq<U64>,
    taken: nat,
    owner: Option<nat>,
    flights: map<nat, Flight>)

  datatype Event =
    | BeginSend(t: nat, target: Id, msg: Msg)
    | BeginReply(t: nat, ext: S.ExtId, msg: Msg)
    | BeginDisable(t: nat)
    | BeginConnect(t: nat, id: Id, repAddr: Addr, pubAddr: Addr)
    | BeginLeave(t: nat, id: Id, pubAddr: Addr)
    | BeginTopic(t: nat, change: S.Change<S.Topic>)
    | Continue(t: nat)
    | Cancel(reqId: U64)
    | RequestArrives(ext: S.ExtId, msg: Msg)
    | ReplyArrives(reqId: U64, msg: Msg)
    | Notify

  /** A thread begins one operation at a time; what needs the lock of the request sockets waits until it is free. */
  predicate Allowed(x: State, e: Event) {
    match e
    case BeginSend(t, _, _) => t !in x.flights
    case BeginReply(t, _, _) => t !in x.flights
    case BeginDisable(t) => t !in x.flights
    case BeginConnect(t, _, _, _) => t !in x.flights && x.owner == None
    case BeginLeave(t, _, _) => t !in x.flights && x.owner == None
    case BeginTopic(t, _) => t !in x.flights
    case Continue(t) =>
      t in x.flights && (x.flights[t].Registered? || x.flights[t].Replying? ==> x.owner == None)
    case _ => true
  }

  function Transmit(s: S.State, to: Id, f: S.Frame): S.State {
    if to in s.sockets then s.(wire := s.wire + [S.Packet(s.sockets[to], f)]) else s
  }

  function Begin(x: State, t: nat, s: S.State, f: Flight): State {
    x.(s := s, flights := x.flights[t := f])
  }

  function End(x: State, t: nat, s: S.State): State {
    x.(s := s, flights := x.flights - {t})
  }

  /** The next piece of the thread's operation. */
  function Proceed(x: State, t: nat): State
    requires t in x.flights
  {
    var s := x.s;
    match x.flights[t]
    case Numbered(id, target, msg) =>
      var r := S.Settle(s, id, S.Abandoned);
      Begin(x, t, r.(futures := r.futures + [S.Pending], outstanding := r.outstanding[id := |r.futures|]),
            Registered(id, target, msg)).(numbers := x.numbers + [id])
    case Registered(id, target, msg) =>
      End(x, t, if target in s.sockets then Transmit(s, target, S.Request(id, S.IdBytes(s.self.id), msg))
                else S.Settle(s, id, S.TargetUnknown))
    case Replying(to, reqId, msg) => End(x, t, Transmit(s, to, S.Reply(reqId, msg)))
    case Disabling => End(x, t, s.(replies := map[]))
    case SocketChanged(c) => Begin(x, t, s.(members := s.members + [c]), MemberQueued)
    case MemberQueued => End(x, t, s.(tokens := s.tokens + [S.MembershipChange])).(owner := None)
    case TopicQueued => End(x, t, s.(tokens := s.tokens + [S.SubscriptionChange]))
  }

  function Step(x: State, e: Event): State
    requires Allowed(x, e)
  {
    var s := x.s;
    match e
    case BeginSend(t, target, msg) =>
      Begin(x, t, s.(nextId := (s.nextId + 1) % TWO64), Numbered(s.nextId, target, msg)).(taken := x.taken + 1)
    case BeginReply(t, ext, msg) =>
      if ext !in s.replies then x
      else Begin(x, t, s.(replies := s.replies - {ext}), Replying(s.replies[ext], ext.reqId, msg))
    case BeginDisable(t) => Begin(x, t, s.(futures := S.AbandonAll(s.futures), outstanding := map[]), Disabling)
    case BeginConnect(t, id, repAddr, pubAddr) =>
      if id in s.sockets then x
      else
        var hello := S.Frame.Hello(S.IdBytes(s.self.id), s.self.repAddr, s.self.pubAddr);
        Begin(x, t, s.(sockets := s.sockets[id := repAddr], wire := s.wire + [S.Packet(repAddr, hello)]),
              SocketChanged(S.Change(pubAddr, true))).(owner := Some(t))
    case BeginLeave(t, id, pubAddr) =>
      if id !in s.sockets then x
      else Begin(x, t, s.(sockets := s.sockets - {id}), SocketChanged(S.Change(pubAddr, false))).(owner := Some(t))
    case BeginTopic(t, c) => Begin(x, t, s.(subscriptions := s.subscriptions + [c]), TopicQueued)
    case Continue(t) => Proceed(x, t)
    case Cancel(id) => x.(s := S.Settle(s, id, S.Abandoned))
    case RequestArrives(ext, msg) =>
      x.(s := s.(replies := s.replies[ext := ext.sender], received := s.received + [(ext, msg)]))
    case ReplyArrives(id, msg) => x.(s := S.Settle(s, id, S.Value(msg)))
    case Notify => x.(s := S.HandleNotify(s))
  }

  function Initial(self: S.Self): State {
    State(S.Initial(self).(alive := true), [], 0, None, map[])
  }

  /** The events can happen one after the other from here. */
  predicate Runs(x: State, es: seq<Event>)
    decreases |es|
  {
    es == [] || (Allowed(x, es[0]) && Runs(Step(x, es[0]), es[1..]))
  }

  function After(x: State, es: seq<Event>): State
    requires Runs(x, es)
    decreases |es|
  {
    if es == [] then x else After(Step(x, es[0]), es[1..])
  }

  // ---- Promises ----

  /** A number is taken by one thread and stays with it: it is on its way to its promise, or has its future. */
  ghost predicate Distinct(numbers: seq<U64>, flights: map<nat, Flight>, taken: nat) {
    && (forall i :: 0 <= i < |numbers| ==> numbers[i] < taken)
    && (forall i, j :: 0 <= i < j < |numbers| ==> numbers[i] != numbers[j])
    && (forall t :: t in flights && flights[t].Numbered? ==> flights[t].id < taken && flights[t].id !in numbers)
    && forall t, u :: t in flights && u in flights && t != u && flights[t].Numbered? && flights[u].Numbered? ==>
         flights[t].id != flights[u].id
  }

  ghost predicate Conserved(x: State) {
    && S.Paired(x.s.futures, x.numbers, x.s.outstanding)
    && x.s.nextId == x.taken % TWO64
    && (x.taken <= TWO64 ==> Distinct(x.numbers, x.flights, x.taken))
  }

  /** Flights that carry no number yet to be registered. */
  lemma DistinctWithout(numbers: seq<U64>, flights: map<nat, Flight>, taken: nat, t: nat, f: Flight)
    requires Distinct(numbers, flights, taken)
    ensures Distinct(numbers, flights - {t}, taken)
    ensures !f.Numbered? ==> Distinct(numbers, flights[t := f], taken)
  {
  }

  lemma DistinctRegister(numbers: seq<U64>, flights: map<nat, Flight>, taken: nat, t: nat, f: Flight)
    requires Distinct(numbers, flights, taken) && t in flights && flights[t].Numbered? && !f.Numbered?
    ensures Distinct(numbers + [flights[t].id], flights[t := f], taken)
  {
  }

  lemma DistinctTake(numbers: seq<U64>, flights: map<nat, Flight>, taken: nat, t: nat, target: Id, msg: Msg)
    requires Distinct(numbers, flights, taken) && t !in flights && taken < TWO64
    ensures Distinct(numbers, flights[t := Numbered(taken, target, msg)], taken + 1)
  {
    assert taken !in numbers;
  }

  lemma ProceedConserves(x: State, t: nat)
    requires Conserved(x) && t in x.flights
    ensures Conserved(Proceed(x, t))
  {
    hide Distinct, S.IdBytes;
    if x.taken <= TWO64 {
      DistinctWithout(x.numbers, x.flights, x.taken, t, MemberQueued);
      if x.flights[t].Numbered? {
        DistinctRegister(x.numbers, x.flights, x.taken, t, Registered(x.flights[t].id, x.flights[t].target, x.flights[t].msg));
      }
    }
    match x.flights[t] {
      case Numbered(id, target, msg) =>
        S.SettlePairs(x.s, x.numbers, id, S.Abandoned);
        S.SettleFrame(x.s, id, S.Abandoned);
        var r := S.Settle(x.s, id, S.Abandoned);
        S.RegisterPairs(r.futures, x.numbers, r.outstanding, id);
      case Registered(id, target, msg) =>
        S.SettlePairs(x.s, x.numbers, id, S.TargetUnknown);
        S.SettleFrame(x.s, id, S.TargetUnknown);
      case _ =>
    }
    hide S.Paired, S.Settle;
  }

  lemma StepConserves(x: State, e: Event)
    requires Conserved(x) && Allowed(x, e)
    ensures Conserved(Step(x, e))
  {
    hide Conserved, S.IdBytes, S.Settle, Proceed, S.HandleNotify;
    match e {
      case BeginSend(t, target, msg) => NumberedConserves(x, e);
      case BeginReply(t, _, _) => BeganConserves(x, e, t);
      case BeginConnect(t, _, _, _) => BeganConserves(x, e, t);
      case BeginLeave(t, _, _) => BeganConserves(x, e, t);
      case BeginTopic(t, _) => BeganConserves(x, e, t);
      case BeginDisable(t) => AbandonedConserves(x, t);
      case Continue(t) => ProceedConserves(x, t);
      case Cancel(id) => SettledConserves(x, id, S.Abandoned);
      case ReplyArrives(id, msg) => SettledConserves(x, id, S.Value(msg));
      case RequestArrives(_, _) => AsideConserves(x, Step(x, e).s);
      case Notify =>
        NotifyAside(x.s);
        AsideConserves(x, Step(x, e).s);
    }
  }

  lemma NumberedConserves(x: State, e: Event)
    requires Conserved(x) && Allowed(x, e) && e.BeginSend?
    ensures Conserved(Step(x, e))
  {
    hide Distinct, S.Paired;
    if x.taken < TWO64 { DistinctTake(x.numbers, x.flights, x.taken, e.t, e.target, e.msg); }
  }

  lemma AbandonedConserves(x: State, t: nat)
    requires Conserved(x) && t !in x.flights
    ensures Conserved(Step(x, BeginDisable(t)))
  {
    hide Distinct, S.Paired;
    if x.taken <= TWO64 { DistinctWithout(x.numbers, x.flights, x.taken, t, Disabling); }
    S.AbandonAllPairs(x.s.futures, x.numbers, x.s.outstanding);
  }

  lemma SettledConserves(x: State, id: U64, f: S.Future)
    requires Conserved(x) && f != S.Pending
    ensures Conserved(x.(s := S.Settle(x.s, id, f)))
  {
    hide Distinct, S.Paired, S.Settle;
    S.SettlePairs(x.s, x.numbers, id, f);
    S.SettleFrame(x.s, id, f);
  }

  /** What touches neither promises nor numbers. */
  lemma AsideConserves(x: State, s: S.State)
    requires Conserved(x) && (s.futures, s.outstanding, s.nextId) == (x.s.futures, x.s.outstanding, x.s.nextId)
    ensures Conserved(x.(s := s))
  {
    hide Distinct, S.Paired;
  }

  lemma BeganConserves(x: State, e: Event, t: nat)
    requires Conserved(x) && Allowed(x, e)
    requires (e.BeginReply? && e.t == t) || (e.BeginConnect? && e.t == t) || (e.BeginLeave? && e.t == t)
             || (e.BeginTopic? && e.t == t)
    ensures Conserved(Step(x, e))
  {
    hide Distinct, S.Paired, S.IdBytes;
    if x.taken <= TWO64 { BeganDistinct(x, e, t); }
  }

  /** Taking a token touches the queues and what follows them, and nothing else. */
  lemma NotifyAside(s: S.State)
    ensures var r := S.HandleNotify(s);
            r == s.(tokens := r.tokens, subscriptions := r.subscriptions, prefixes := r.prefixes,
                    members := r.members, connected := r.connected)
  {
    hide S.ApplyMember, S.ApplySubscription;
  }

  lemma BeganDistinct(x: State, e: Event, t: nat)
    requires Distinct(x.numbers, x.flights, x.taken) && Allowed(x, e)
    requires (e.BeginReply? && e.t == t) || (e.BeginConnect? && e.t == t) || (e.BeginLeave? && e.t == t)
             || (e.BeginTopic? && e.t == t)
    ensures Distinct(Step(x, e).numbers, Step(x, e).flights, Step(x, e).taken)
  {
    hide Distinct, S.IdBytes;
    var y := Step(x, e);
    if t in y.flights { DistinctWithout(x.numbers, x.flights, x.taken, t, y.flights[t]); }
  }

  // ---- What follows for the callers ----

  /** Below 2^64 numbers, registering a promise never replaces one. */
  lemma RegisteringReplacesNothing(x: State, t: nat)
    requires Conserved(x) && x.taken <= TWO64 && t in x.flights && x.flights[t].Numbered?
    ensures x.flights[t].id !in x.s.outstanding
  {
  }

  /** How a pending future may be settled. */
  predicate Settles(x: State, e: Event, number: U64, f: S.Future)
    requires Allowed(x, e)
  {
    match f
    case Pending => false
    case Value(msg) => e == ReplyArrives(number, msg)
    case TargetUnknown => e.Continue? && x.flights[e.t].Registered? && x.flights[e.t].id == number
    case Abandoned => e == Cancel(number) || e.BeginDisable?
                      || (e.Continue? && x.flights[e.t].Numbered? && x.flights[e.t].id == number)
  }

  /** In every interleaving a future settles once: what is settled stays. A future gets its value from a reply that
      carries its own number, and fails with an unknown target only by the thread that sends its own request. */
  lemma FuturesSettleOnce(x: State, e: Event, k: nat)
    requires Conserved(x) && Allowed(x, e) && k < |x.s.futures|
    ensures var y := Step(x, e);
            && k < |y.s.futures| && k < |x.numbers| && k < |y.numbers| && y.numbers[k] == x.numbers[k]
            && (y.s.futures[k] == x.s.futures[k]
                || (x.s.futures[k] == S.Pending && Settles(x, e, x.numbers[k], y.s.futures[k])))
  {
    hide Distinct, S.IdBytes, S.Settle;
    match e {
      case Continue(t) => ProceedSettlesOnce(x, t, k);
      case Cancel(id) => S.SettleAt(x.s, x.numbers, id, S.Abandoned, k);
      case ReplyArrives(id, msg) => S.SettleAt(x.s, x.numbers, id, S.Value(msg), k);
      case _ =>
    }
  }

  lemma OneNumberEach(x: State)
    requires Conserved(x)
    ensures |x.numbers| == |x.s.futures|
  {
  }

  lemma ProceedSettlesOnce(x: State, t: nat, k: nat)
    requires Conserved(x) && Allowed(x, Continue(t)) && k < |x.s.futures|
    ensures var y := Proceed(x, t);
            && k < |y.s.futures| && k < |x.numbers| && k < |y.numbers| && y.numbers[k] == x.numbers[k]
            && (y.s.futures[k] == x.s.futures[k]
                || (x.s.futures[k] == S.Pending && Settles(x, Continue(t), x.numbers[k], y.s.futures[k])))
  {
    hide Distinct, S.IdBytes, S.Settle, S.Paired;
    OneNumberEach(x);
    match x.flights[t] {
      case Numbered(id, _, _) => S.SettleAt(x.s, x.numbers, id, S.Abandoned, k);
      case Registered(id, _, _) => S.SettleAt(x.s, x.numbers, id, S.TargetUnknown, k);
      case _ =>
    }
  }

  // ---- Queues and tokens ----

  function Within(flights: map<nat, Flight>, f: Flight): set<nat> {
    set t | t in flights && flights[t] == f
  }

  /** Every queued change has its token, or a thread that is about to send it. */
  ghost predicate TokensFollow(x: State) {
    && S.CountTokens(x.s.tokens, S.MembershipChange) + |Within(x.flights, MemberQueued)| == |x.s.members|
    && S.CountTokens(x.s.tokens, S.SubscriptionChange) + |Within(x.flights, TopicQueued)| == |x.s.subscriptions|
  }

  lemma TokensFollowParts(x: State, y: State)
    requires TokensFollow(x) && y.s == x.s && y.flights == x.flights
    ensures TokensFollow(y)
  {
  }

  lemma WithinBegin(flights: map<nat, Flight>, t: nat, f: Flight, g: Flight)
    ensures Within(flights[t := f], g) == if f == g then Within(flights, g) + {t} else Within(flights, g) - {t}
    ensures t in Within(flights, g) <==> t in flights && flights[t] == g
  {
  }

  lemma WithinEnd(flights: map<nat, Flight>, t: nat, g: Flight)
    ensures Within(flights - {t}, g) == Within(flights, g) - {t}
    ensures t in Within(flights, g) <==> t in flights && flights[t] == g
  {
  }

  lemma TokenSent(tokens: seq<S.Token>)
    ensures forall x, y :: S.CountTokens(tokens + [x], y) == S.CountTokens(tokens, y) + if x == y then 1 else 0
  {
    forall x, y
      ensures S.CountTokens(tokens + [x], y) == S.CountTokens(tokens, y) + if x == y then 1 else 0
    {
      S.CountTokensAppend(tokens, x, y);
    }
  }

  lemma BeginKeepsTokens(x: State, t: nat, s: S.State, f: Flight)
    requires TokensFollow(x) && (t in x.flights ==> x.flights[t] != MemberQueued && x.flights[t] != TopicQueued)
    requires s.tokens == x.s.tokens
    requires |s.members| == |x.s.members| + if f == MemberQueued then 1 else 0
    requires |s.subscriptions| == |x.s.subscriptions| + if f == TopicQueued then 1 else 0
    ensures TokensFollow(Begin(x, t, s, f))
  {
    WithinBegin(x.flights, t, f, MemberQueued);
    WithinBegin(x.flights, t, f, TopicQueued);
    hide Within;
  }

  lemma EndKeepsTokens(x: State, t: nat, s: S.State)
    requires TokensFollow(x) && t in x.flights
    requires s.members == x.s.members && s.subscriptions == x.s.subscriptions
    requires s.tokens == x.s.tokens + (if x.flights[t] == MemberQueued then [S.MembershipChange]
                                       else if x.flights[t] == TopicQueued then [S.SubscriptionChange] else [])
    ensures TokensFollow(End(x, t, s))
  {
    hide S.CountTokens, Within;
    WithinEnd(x.flights, t, MemberQueued);
    WithinEnd(x.flights, t, TopicQueued);
    TokenSent(x.s.tokens);
    assert x.s.tokens + [] == x.s.tokens;
  }

  /** In every interleaving a token that is taken finds its change. */
  lemma StepKeepsTokens(x: State, e: Event)
    requires TokensFollow(x) && Allowed(x, e)
    ensures TokensFollow(Step(x, e))
    ensures x.s.tokens != [] && x.s.tokens[0] == S.MembershipChange ==> x.s.members != []
    ensures x.s.tokens != [] && x.s.tokens[0] == S.SubscriptionChange ==> x.s.subscriptions != []
  {
    hide S.IdBytes, Within;
    match e {
      case BeginSend(t, target, msg) =>
        BeginKeepsTokens(x, t, x.s.(nextId := (x.s.nextId + 1) % TWO64), Numbered(x.s.nextId, target, msg));
      case BeginReply(t, ext, msg) =>
        if ext in x.s.replies {
          BeginKeepsTokens(x, t, Step(x, e).s, Replying(x.s.replies[ext], ext.reqId, msg));
        }
      case BeginDisable(t) => BeginKeepsTokens(x, t, Step(x, e).s, Disabling);
      case BeginConnect(t, id, _, pubAddr) =>
        if id !in x.s.sockets { BeginKeepsTokens(x, t, Step(x, e).s, SocketChanged(S.Change(pubAddr, true))); }
      case BeginLeave(t, id, pubAddr) =>
        if id in x.s.sockets { BeginKeepsTokens(x, t, Step(x, e).s, SocketChanged(S.Change(pubAddr, false))); }
      case BeginTopic(t, c) => BeginKeepsTokens(x, t, Step(x, e).s, TopicQueued);
      case Continue(t) => ProceedKeepsTokens(x, t);
      case _ =>
    }
  }

  lemma QueuesAside(s: S.State)
    ensures forall id, f :: S.Settle(s, id, f).tokens == s.tokens && S.Settle(s, id, f).members == s.members
                            && S.Settle(s, id, f).subscriptions == s.subscriptions
    ensures forall to, f :: Transmit(s, to, f).tokens == s.tokens && Transmit(s, to, f).members == s.members
                            && Transmit(s, to, f).subscriptions == s.subscriptions
  {
  }

  lemma ProceedKeepsTokens(x: State, t: nat)
    requires TokensFollow(x) && t in x.flights
    ensures TokensFollow(Proceed(x, t))
  {
    hide S.IdBytes, TokensFollow, S.Settle, Transmit;
    QueuesAside(x.s);
    var y := Proceed(x, t);
    if t in y.flights {
      BeginKeepsTokens(x, t, y.s, y.flights[t]);
      TokensFollowParts(Begin(x, t, y.s, y.flights[t]), y);
    } else {
      EndKeepsTokens(x, t, y.s);
      TokensFollowParts(End(x, t, y.s), y);
    }
  }

  // ---- The lock of the request sockets and the membership queue ----

  predicate Owns(f: Flight) {
    f.SocketChanged? || f == MemberQueued
  }

  /** The lock is held exactly by the one thread that is changing a socket. */
  ghost predicate OneOwner(x: State) {
    forall t :: (t in x.flights && Owns(x.flights[t])) <==> x.owner == Some(t)
  }

  /** The change of a socket that is not queued yet. */
  function Unqueued(x: State): seq<S.Change<Addr>> {
    if x.owner.Some? && x.owner.value in x.flights && x.flights[x.owner.value].SocketChanged? then
      [x.flights[x.owner.value].change]
    else []
  }

  /** The queued changes and the one to come lead to exactly the peers that have a request socket. */
  ghost predicate MembersFollow(pub: map<Id, Addr>, x: State) {
    && x.s.sockets.Keys <= pub.Keys
    && S.DrainedMembers(x.s.connected, x.s.members + Unqueued(x)) == set id | id in x.s.sockets :: pub[id]
  }

  /** Peers come and go with their own publish addresses. */
  predicate Truthful(pub: map<Id, Addr>, e: Event) {
    match e
    case BeginConnect(_, id, _, a) => id in pub && pub[id] == a
    case BeginLeave(_, id, a) => id in pub && pub[id] == a
    case _ => true
  }

  lemma StepKeepsOwner(x: State, e: Event)
    requires OneOwner(x) && Allowed(x, e)
    ensures OneOwner(Step(x, e))
  {
    hide S.IdBytes, S.Settle, Transmit, S.HandleNotify;
  }

  /** Outside its piece of an operation, nobody touches sockets, queued members or the change to come. */
  lemma MembersUntouched(x: State, e: Event)
    requires OneOwner(x) && Allowed(x, e)
    requires !e.BeginConnect? && !e.BeginLeave? && e != Notify && !(e.Continue? && Owns(x.flights[e.t]))
    ensures Step(x, e).s.sockets == x.s.sockets && Step(x, e).s.members == x.s.members
    ensures Step(x, e).s.connected == x.s.connected && Unqueued(Step(x, e)) == Unqueued(x)
  {
    hide S.IdBytes, S.Settle;
    match e {
      case Continue(t) => ProceedUntouched(x, t);
      case Cancel(id) => S.SettleFrame(x.s, id, S.Abandoned);
      case ReplyArrives(id, msg) => S.SettleFrame(x.s, id, S.Value(msg));
      case _ =>
    }
  }

  lemma ProceedUntouched(x: State, t: nat)
    requires OneOwner(x) && t in x.flights && !Owns(x.flights[t])
    ensures Proceed(x, t).s.sockets == x.s.sockets && Proceed(x, t).s.members == x.s.members
    ensures Proceed(x, t).s.connected == x.s.connected && Unqueued(Proceed(x, t)) == Unqueued(x)
  {
    hide S.IdBytes, S.Settle;
    if x.flights[t].Numbered? || x.flights[t].Registered? {
      S.SettleFrame(x.s, x.flights[t].id, S.Abandoned);
      S.SettleFrame(x.s, x.flights[t].id, S.TargetUnknown);
    }
  }

  lemma SocketsOf(pub: map<Id, Addr>, sockets: map<Id, Addr>, id: Id, repAddr: Addr)
    requires S.OneAddressEach(pub) && sockets.Keys <= pub.Keys && id in pub
    ensures (set y | y in sockets[id := repAddr] :: pub[y]) == (set y | y in sockets :: pub[y]) + {pub[id]}
    ensures id in sockets ==> (set y | y in sockets - {id} :: pub[y]) == (set y | y in sockets :: pub[y]) - {pub[id]}
  {
    var all := set y | y in sockets :: pub[y];
    assert forall y :: y in sockets ==> pub[y] in all;
  }

  lemma StepKeepsMembers(pub: map<Id, Addr>, x: State, e: Event)
    requires S.OneAddressEach(pub) && OneOwner(x) && MembersFollow(pub, x) && Allowed(x, e) && Truthful(pub, e)
    ensures MembersFollow(pub, Step(x, e))
  {
    hide S.IdBytes, S.OneAddressEach;
    match e {
      case BeginConnect(t, id, repAddr, a) => if id !in x.s.sockets { ChangeFollows(pub, x, e, id, repAddr); }
      case BeginLeave(t, id, a) => if id in x.s.sockets { ChangeFollows(pub, x, e, id, Addr(0, 0)); }
      case Notify => NotifyFollows(pub, x);
      case Continue(t) =>
        if Owns(x.flights[t]) { OwnerFollows(pub, x, t); } else { MembersUntouched(x, e); }
        hide Proceed;
      case _ => MembersUntouched(x, e);
    }
  }

  lemma ChangeFollows(pub: map<Id, Addr>, x: State, e: Event, id: Id, repAddr: Addr)
    requires S.OneAddressEach(pub) && OneOwner(x) && MembersFollow(pub, x) && Allowed(x, e) && Truthful(pub, e)
    requires (e.BeginConnect? && e.id == id && e.repAddr == repAddr && id !in x.s.sockets)
             || (e.BeginLeave? && e.id == id && id in x.s.sockets)
    ensures MembersFollow(pub, Step(x, e))
  {
    hide S.IdBytes;
    SocketsOf(pub, x.s.sockets, id, repAddr);
    var c := S.Change(pub[id], e.BeginConnect?);
    assert Unqueued(x) == [] && Unqueued(Step(x, e)) == [c];
    assert x.s.members + [] == x.s.members;
    S.DrainedMembersAppend(x.s.connected, x.s.members, c);
    hide S.DrainedMembers, S.OneAddressEach, OneOwner;
  }

  lemma OwnerFollows(pub: map<Id, Addr>, x: State, t: nat)
    requires OneOwner(x) && MembersFollow(pub, x) && t in x.flights && Owns(x.flights[t])
    ensures MembersFollow(pub, Proceed(x, t))
  {
    hide S.IdBytes, S.DrainedMembers;
    assert x.owner == Some(t);
    assert x.s.members + [] == x.s.members;
    if x.flights[t].SocketChanged? {
      assert (x.s.members + [x.flights[t].change]) + [] == x.s.members + [x.flights[t].change];
    }
  }

  lemma NotifyFollows(pub: map<Id, Addr>, x: State)
    requires MembersFollow(pub, x)
    ensures MembersFollow(pub, x.(s := S.HandleNotify(x.s)))
  {
    hide S.ApplyMember, S.ApplySubscription;
    var q := x.s.members;
    if q != [] {
      assert (q + Unqueued(x))[1..] == q[1..] + Unqueued(x);
      assert (q + Unqueued(x))[0] == q[0];
    }
  }

  // ---- Replies ----

  predicate RepliesTo(f: Flight, ext: S.ExtId) {
    f.Replying? && f.to == ext.sender && f.reqId == ext.reqId
  }

  /** The threads that have taken the waiting request and not answered it yet. */
  function RepliersTo(flights: map<nat, Flight>, ext: S.ExtId): set<nat> {
    set t | t in flights && RepliesTo(flights[t], ext)
  }

  /** The requests received with this identity. */
  function Received(es: seq<Event>, ext: S.ExtId): nat {
    if es == [] then 0
    else (if es[0].RequestArrives? && es[0].ext == ext then 1 else 0) + Received(es[1..], ext)
  }

  predicate Answers(x: State, e: Event, ext: S.ExtId) {
    e.Continue? && e.t in x.flights && RepliesTo(x.flights[e.t], ext)
  }

  /** The answers for this identity that threads have done with, and those of them that left the node. */
  function Answered(x: State, es: seq<Event>, ext: S.ExtId): nat
    requires Runs(x, es)
    decreases |es|
  {
    if es == [] then 0
    else (if Answers(x, es[0], ext) then 1 else 0) + Answered(Step(x, es[0]), es[1..], ext)
  }

  function Sent(x: State, es: seq<Event>, ext: S.ExtId): (n: nat)
    requires Runs(x, es)
    ensures n <= Answered(x, es, ext)
    decreases |es|
  {
    if es == [] then 0
    else
      (if Answers(x, es[0], ext) && ext.sender in x.s.sockets then 1 else 0) + Sent(Step(x, es[0]), es[1..], ext)
  }

  /** Requests of this identity that wait or are being answered. */
  function Open(x: State, ext: S.ExtId): nat {
    |RepliersTo(x.flights, ext)| + if ext in x.s.replies then 1 else 0
  }

  /** A step opens at most the request that arrives, and an answer closes one. */
  lemma StepOpens(x: State, e: Event, ext: S.ExtId)
    requires Allowed(x, e) && S.RepliesToSender(x.s)
    ensures S.RepliesToSender(Step(x, e).s)
    ensures Open(Step(x, e), ext) + (if Answers(x, e, ext) then 1 else 0)
         <= Open(x, ext) + if e.RequestArrives? && e.ext == ext then 1 else 0
  {
    hide S.IdBytes, S.Settle, Transmit, S.HandleNotify;
    RepliesStep(x, e);
    var y := Step(x, e);
    hide Proceed, S.RepliesToSender;
    match e {
      case BeginReply(t, _, _) => RepliersBegin(x.flights, t, y, ext);
      case BeginSend(t, _, _) => RepliersBegin(x.flights, t, y, ext);
      case BeginDisable(t) => RepliersBegin(x.flights, t, y, ext);
      case BeginConnect(t, _, _, _) => RepliersBegin(x.flights, t, y, ext);
      case BeginLeave(t, _, _) => RepliersBegin(x.flights, t, y, ext);
      case BeginTopic(t, _) => RepliersBegin(x.flights, t, y, ext);
      case Continue(t) => RepliersContinue(x, t, ext);
      case _ =>
    }
  }

  lemma RepliesStep(x: State, e: Event)
    requires Allowed(x, e) && S.RepliesToSender(x.s)
    ensures S.RepliesToSender(Step(x, e).s)
    ensures e.BeginReply? && e.ext in x.s.replies ==> x.s.replies[e.ext] == e.ext.sender
    ensures Step(x, e).s.replies.Keys <= x.s.replies.Keys + if e.RequestArrives? then {e.ext} else {}
  {
    hide S.IdBytes, S.Settle, Transmit, S.HandleNotify;
    RepliesAside(x.s);
  }

  lemma RepliesAside(s: S.State)
    ensures forall id, f :: S.Settle(s, id, f).replies == s.replies
    ensures forall to, f :: Transmit(s, to, f).replies == s.replies
    ensures S.HandleNotify(s).replies == s.replies
  {
    hide S.Settle, S.HandleNotify;
    NotifyAside(s);
    forall id, f
      ensures S.Settle(s, id, f).replies == s.replies
    {
      S.SettleFrame(s, id, f);
    }
  }

  lemma RepliersBegin(flights: map<nat, Flight>, t: nat, y: State, ext: S.ExtId)
    requires t !in flights && (y.flights == flights || (t in y.flights && y.flights == flights[t := y.flights[t]]))
    ensures |RepliersTo(y.flights, ext)|
         == |RepliersTo(flights, ext)| + if t in y.flights && RepliesTo(y.flights[t], ext) then 1 else 0
  {
    if t in y.flights {
      assert RepliersTo(y.flights, ext)
          == if RepliesTo(y.flights[t], ext) then RepliersTo(flights, ext) + {t} else RepliersTo(flights, ext);
    }
  }

  lemma RepliersContinue(x: State, t: nat, ext: S.ExtId)
    requires t in x.flights
    ensures |RepliersTo(Proceed(x, t).flights, ext)| + (if RepliesTo(x.flights[t], ext) then 1 else 0)
         == |RepliersTo(x.flights, ext)|
  {
    hide S.IdBytes, S.Settle, Transmit;
    assert RepliersTo(Proceed(x, t).flights, ext) == RepliersTo(x.flights, ext) - {t};
  }

  /** From any state on: the answers done with and what is open then are at most the requests received and what was open. */
  lemma {:induction false} AnswersComeFromRequests(x: State, es: seq<Event>, ext: S.ExtId)
    requires Runs(x, es) && S.RepliesToSender(x.s)
    ensures S.RepliesToSender(After(x, es).s)
    ensures Answered(x, es, ext) + Open(After(x, es), ext) <= Received(es, ext) + Open(x, ext)
    decreases |es|
  {
    if es != [] {
      StepOpens(x, es[0], ext);
      hide Step, Allowed, Open, Answers, S.RepliesToSender;
      AnswersComeFromRequests(Step(x, es[0]), es[1..], ext);
    }
  }

  /** In every interleaving, for every identity: the answers sent, those on their way and the waiting request together
      are at most the requests received. */
  lemma AnswersNeverExceedRequests(self: S.Self, es: seq<Event>, ext: S.ExtId)
    requires Runs(Initial(self), es)
    ensures S.RepliesToSender(After(Initial(self), es).s)
    ensures Sent(Initial(self), es, ext) <= Answered(Initial(self), es, ext)
    ensures Answered(Initial(self), es, ext) + Open(After(Initial(self), es), ext) <= Received(es, ext)
  {
    AnswersComeFromRequests(Initial(self), es, ext);
    assert RepliersTo(map[], ext) == {};
  }

  // ---- Answers and disabling ----

  lemma {:induction false} RunsAppend(x: State, a: seq<Event>, b: seq<Event>, ext: S.ExtId)
    requires Runs(x, a) && Runs(After(x, a), b)
    ensures Runs(x, a + b) && After(x, a + b) == After(After(x, a), b)
    ensures Sent(x, a + b, ext) == Sent(x, a, ext) + Sent(After(x, a), b, ext)
    ensures Received(a + b, ext) == Received(a, ext) + Received(b, ext)
    decreases |a|
  {
    hide Step, Allowed, Answers;
    if a == [] {
      assert a + b == b;
    } else {
      assert (a + b)[1..] == a[1..] + b;
      RunsAppend(Step(x, a[0]), a[1..], b, ext);
    }
  }

  lemma OneEvent(x: State, e: Event, ext: S.ExtId)
    requires Allowed(x, e)
    ensures Runs(x, [e]) && After(x, [e]) == Step(x, e)
    ensures Sent(x, [e], ext) == if Answers(x, e, ext) && ext.sender in x.s.sockets then 1 else 0
    ensures Received([e], ext) == if e.RequestArrives? && e.ext == ext then 1 else 0
  {
    hide Step, Allowed, Answers;
    assert [e][1..] == [];
  }

  /** From x the events lead to a state with the socket lock free in which thread t still has its answer to send, and
      bring no request. */
  ghost predicate LeadsToFree(x: State, es: seq<Event>, t: nat, ext: S.ExtId) {
    && Runs(x, es) && Received(es, ext) == 0
    && var y := After(x, es);
       OneOwner(y) && y.owner == None && t in y.flights && RepliesTo(y.flights[t], ext)
  }

  /** A thread that changes a socket, left to go on, gives the lock back. */
  lemma OwnerGoesOn(x: State, t: nat, ext: S.ExtId) returns (es: seq<Event>)
    requires OneOwner(x) && t in x.flights && RepliesTo(x.flights[t], ext)
    ensures LeadsToFree(x, es, t, ext)
    decreases if x.owner == None then 0 else if Unqueued(x) == [] then 1 else 2
  {
    hide S.IdBytes;
    es := [];
    if x.owner.Some? {
      var u := x.owner.value;
      var e := Continue(u);
      assert u in x.flights && Owns(x.flights[u]);
      StepKeepsOwner(x, e);
      assert t in Step(x, e).flights && Step(x, e).flights[t] == x.flights[t];
      var rest := OwnerGoesOn(Step(x, e), t, ext);
      hide Step, OneOwner, RepliesTo;
      es := [e] + rest;
      assert es[1..] == rest;
    }
  }

  lemma {:induction false} FreshThread(busy: set<nat>) returns (t: nat)
    ensures t !in busy && forall u :: u in busy ==> u < t
    decreases |busy|
  {
    t := 0;
    if u :| u in busy {
      var rest := busy - {u};
      var v := FreshThread(rest);
      t := if u < v then v else u + 1;
      assert forall w :: w in busy ==> w == u || w in rest;
    }
  }

  /** The thread with an answer to send can do so in some continuation without a request: if its peer has no socket, some
      other thread can still connect it. */
  lemma AnswerCanLeave(x: State, t: nat, ext: S.ExtId) returns (es: seq<Event>)
    requires OneOwner(x) && t in x.flights && RepliesTo(x.flights[t], ext)
    ensures Runs(x, es) && Sent(x, es, ext) >= 1 && Received(es, ext) == 0
  {
    var freed := OwnerGoesOn(x, t, ext);
    var y := After(x, freed);
    var sending := SendOrConnect(y, t, ext);
    RunsAppend(x, freed, sending, ext);
    es := freed + sending;
  }

  lemma SendOrConnect(y: State, t: nat, ext: S.ExtId) returns (es: seq<Event>)
    requires OneOwner(y) && y.owner == None && t in y.flights && RepliesTo(y.flights[t], ext)
    ensures Runs(y, es) && Sent(y, es, ext) >= 1 && Received(es, ext) == 0
  {
    hide S.IdBytes;
    if ext.sender in y.s.sockets {
      OneEvent(y, Continue(t), ext);
      es := [Continue(t)];
    } else {
      var v := FreshThread(y.flights.Keys);
      var connect := BeginConnect(v, ext.sender, Addr(0, 0), Addr(0, 0));
      var z := Step(y, connect);
      OneEvent(y, connect, ext);
      StepKeepsOwner(y, connect);
      assert t in z.flights && z.flights[t] == y.flights[t] && ext.sender in z.s.sockets && z.owner == Some(v);
      hide Step, OneOwner;
      var rest := ConnectedSends(z, t, ext);
      RunsAppend(y, [connect], rest, ext);
      es := [connect] + rest;
    }
  }

  lemma ConnectedSends(z: State, t: nat, ext: S.ExtId) returns (es: seq<Event>)
    requires OneOwner(z) && t in z.flights && RepliesTo(z.flights[t], ext) && ext.sender in z.s.sockets
    ensures Runs(z, es) && Sent(z, es, ext) >= 1 && Received(es, ext) == 0
    decreases if z.owner == None then 0 else if Unqueued(z) == [] then 1 else 2
  {
    hide S.IdBytes;
    if z.owner == None {
      OneEvent(z, Continue(t), ext);
      es := [Continue(t)];
    } else {
      var u := z.owner.value;
      var e := Continue(u);
      assert u in z.flights && Owns(z.flights[u]);
      StepKeepsOwner(z, e);
      OneEvent(z, e, ext);
      assert t in Step(z, e).flights && Step(z, e).flights[t] == z.flights[t] && Step(z, e).s.sockets == z.s.sockets;
      var rest := ConnectedSends(Step(z, e), t, ext);
      hide Step, OneOwner, RepliesTo;
      RunsAppend(z, [e], rest, ext);
      es := [e] + rest;
    }
  }

  /** Exactly when an answer outlives a disable: from the moment the waiting requests are cleared, the answers that leave
      stay within the requests received since, in every continuation, if and only if no thread had then taken a request of
      this identity and not yet sent its answer. */
  lemma NoAnswerOutlivesDisableExactlyWhenNoneTaken(self: S.Self, es: seq<Event>, t: nat, ext: S.ExtId)
    requires Runs(Initial(self), es)
    requires var y := After(Initial(self), es); t in y.flights && y.flights[t] == Disabling
    ensures var x := Step(After(Initial(self), es), Continue(t));
            && x.s.replies == map[]
            && ((forall later :: Runs(x, later) ==> Sent(x, later, ext) <= Received(later, ext))
                <==> RepliersTo(x.flights, ext) == {})
  {
    var y := After(Initial(self), es);
    var x := Step(y, Continue(t));
    AnswersNeverExceedRequests(self, es, ext);
    OwnedAfter(self, es);
    StepOpens(y, Continue(t), ext);
    StepKeepsOwner(y, Continue(t));
    assert x.s.replies == map[];
    hide Step, S.RepliesToSender, OneOwner;
    if RepliersTo(x.flights, ext) == {} {
      forall later | Runs(x, later)
        ensures Sent(x, later, ext) <= Received(later, ext)
      {
        AnswersComeFromRequests(x, later, ext);
      }
    } else {
      var u :| u in RepliersTo(x.flights, ext);
      var later := AnswerCanLeave(x, u, ext);
      assert Runs(x, later) && Sent(x, later, ext) > Received(later, ext);
    }
  }

  lemma OwnedAfter(self: S.Self, es: seq<Event>)
    requires Runs(Initial(self), es)
    ensures OneOwner(After(Initial(self), es))
  {
    OwnerKept(Initial(self), es);
  }

  lemma {:induction false} OwnerKept(x: State, es: seq<Event>)
    requires Runs(x, es) && OneOwner(x)
    ensures OneOwner(After(x, es))
    decreases |es|
  {
    if es != [] {
      StepKeepsOwner(x, es[0]);
      hide OneOwner, Step, Allowed;
      OwnerKept(Step(x, es[0]), es[1..]);
    }
  }

  /** Such a schedule: an answer taken before a disable leaves after it. */
  lemma AnswerMayOutliveDisable(x: State, t: nat, u: nat, ext: S.ExtId, msg: Msg)
    requires t != u && t !in x.flights && u !in x.flights && x.owner == None
    requires ext in x.s.replies && x.s.replies[ext] in x.s.sockets
    ensures var taken := Step(x, BeginReply(t, ext, msg));
            var disabled := Step(Step(taken, BeginDisable(u)), Continue(u));
            && disabled.s.replies == map[] && disabled.s.wire == x.s.wire
            && Allowed(disabled, Continue(t))
            && Step(disabled, Continue(t)).s.wire
               == x.s.wire + [S.Packet(x.s.sockets[x.s.replies[ext]], S.Reply(ext.reqId, msg))]
  {
  }

  // ---- Every interleaving ----

  ghost predicate Good(pub: map<Id, Addr>, x: State) {
    Conserved(x) && TokensFollow(x) && OneOwner(x) && MembersFollow(pub, x)
  }

  lemma {:induction false} GoodAfter(pub: map<Id, Addr>, x: State, es: seq<Event>)
    requires S.OneAddressEach(pub) && Good(pub, x) && Runs(x, es)
    requires forall k :: 0 <= k < |es| ==> Truthful(pub, es[k])
    ensures Good(pub, After(x, es))
    decreases |es|
  {
    if es != [] {
      var e := es[0];
      assert Truthful(pub, e);
      StepConserves(x, e);
      StepKeepsTokens(x, e);
      StepKeepsOwner(x, e);
      StepKeepsMembers(pub, x, e);
      hide Step, Allowed, Conserved, TokensFollow, OneOwner, MembersFollow, Truthful;
      GoodAfter(pub, Step(x, e), es[1..]);
    }
  }

  /** In every interleaving of any number of threads: the outstanding promises are the pending futures and all requests are
      accounted for, every queued change has a token on its way, one thread at a time changes sockets, and the membership
      queue leads to exactly the connected peers. */
  lemma EveryInterleaving(pub: map<Id, Addr>, self: S.Self, es: seq<Event>)
    requires S.OneAddressEach(pub) && Runs(Initial(self), es)
    requires forall k :: 0 <= k < |es| ==> Truthful(pub, es[k])
    ensures Good(pub, After(Initial(self), es))
    ensures var s := After(Initial(self), es).s;
            |s.futures| == |s.outstanding| + S.CountAnswered(s.futures) + S.Count(s.futures, S.TargetUnknown)
                           + S.Count(s.futures, S.Abandoned)
  {
    InitialIsGood(pub, self);
    GoodAfter(pub, Initial(self), es);
    hide After, Runs, Initial;
    CountsAddUp(pub, After(Initial(self), es));
  }

  lemma CountsAddUp(pub: map<Id, Addr>, x: State)
    requires Good(pub, x)
    ensures |x.s.futures| == |x.s.outstanding| + S.CountAnswered(x.s.futures) + S.Count(x.s.futures, S.TargetUnknown)
                             + S.Count(x.s.futures, S.Abandoned)
  {
    S.CountsAddUp(x.s.futures);
    S.PendingCount(x.s.futures, x.numbers, x.s.outstanding);
  }

  lemma InitialIsGood(pub: map<Id, Addr>, self: S.Self)
    ensures Good(pub, Initial(self))
  {
    var x := Initial(self);
    assert Within(map[], MemberQueued) == {} && Within(map[], TopicQueued) == {};
    assert x.s.sockets == map[] && S.DrainedMembers({}, []) == {};
  }

  /** The request sockets are used only by a thread that has their lock, or takes it for that: what is sent to a peer leaves,
      and a socket comes or goes, only while no thread is between changing a socket and sending the token. */
  lemma SocketsUsedUnderLock(x: State, e: Event)
    requires Allowed(x, e)
    ensures Step(x, e).s.wire != x.s.wire || Step(x, e).s.sockets != x.s.sockets ==> x.owner == None
  {
    hide Proceed, S.Settle, S.IdBytes, S.ApplyMember, S.ApplySubscription;
    match e {
      case Continue(t) => ProceedUsesLock(x, t);
      case Cancel(id) => S.SettleFrame(x.s, id, S.Abandoned);
      case ReplyArrives(id, msg) => S.SettleFrame(x.s, id, S.Value(msg));
      case _ =>
    }
  }

  lemma ProceedUsesLock(x: State, t: nat)
    requires Allowed(x, Continue(t))
    ensures Proceed(x, t).s.wire != x.s.wire ==> x.owner == None
    ensures Proceed(x, t).s.sockets == x.s.sockets
  {
    hide S.Settle, S.IdBytes;
    match x.flights[t] {
      case Numbered(id, _, _) => S.SettleFrame(x.s, id, S.Abandoned);
      case Registered(id, _, _) => S.SettleFrame(x.s, id, S.TargetUnknown);
      case _ =>
    }
  }

  // ---- One operation alone ----

  function Connecting(s: S.State, t: nat, id: Id, repAddr: Addr, pubAddr: Addr): seq<Event> {
    if id in s.sockets then [BeginConnect(t, id, repAddr, pubAddr)]
    else [BeginConnect(t, id, repAddr, pubAddr), Continue(t), Continue(t)]
  }

  /** The pieces of an operation that a thread makes. */
  function Pieces(s: S.State, t: nat, e: S.Event): seq<Event> {
    match e
    case Send(target, msg) => [BeginSend(t, target, msg), Continue(t), Continue(t)]
    case Answer(ext, msg) =>
      if ext in s.replies then [BeginReply(t, ext, msg), Continue(t)] else [BeginReply(t, ext, msg)]
    case Disable => [BeginDisable(t), Continue(t)]
    case Join(id, repAddr, pubAddr) => Connecting(s, t, id, repAddr, pubAddr)
    case Leave(id, pubAddr) =>
      if id in s.sockets then [BeginLeave(t, id, pubAddr), Continue(t), Continue(t)] else [BeginLeave(t, id, pubAddr)]
    case Subscribe(topic) => [BeginTopic(t, S.Change(topic, true)), Continue(t)]
    case Unsubscribe(topic) => [BeginTopic(t, S.Change(topic, false)), Continue(t)]
    case Cancel(id) => [Cancel(id)]
    case Arrive(f) =>
      if f.Request? then [RequestArrives(S.ExtId(S.IdFrom(f.sender), f.reqId), f.msg)]
      else if f.Reply? then [ReplyArrives(f.reqId, f.msg)]
      else Connecting(s, t, S.IdFrom(f.sender), f.repAddr, f.pubAddr)
    case Notify => [Notify]
    case _ => []
  }

  lemma AfterOne(x: State, e: Event)
    requires Allowed(x, e)
    ensures Runs(x, [e]) && After(x, [e]) == Step(x, e)
  {
  }

  lemma AfterTwo(x: State, e: Event, f: Event)
    requires Allowed(x, e) && Allowed(Step(x, e), f)
    ensures Runs(x, [e, f]) && After(x, [e, f]) == Step(Step(x, e), f)
  {
    assert [e, f][1..] == [f];
    AfterOne(Step(x, e), f);
    hide Step, Allowed;
  }

  lemma AfterThree(x: State, e: Event, f: Event, g: Event)
    requires Allowed(x, e) && Allowed(Step(x, e), f) && Allowed(Step(Step(x, e), f), g)
    ensures Runs(x, [e, f, g]) && After(x, [e, f, g]) == Step(Step(Step(x, e), f), g)
  {
    assert [e, f, g][1..] == [f, g];
    AfterTwo(Step(x, e), f, g);
    hide Step, Allowed;
  }

  /** Nobody else holds the lock of the request sockets, and the thread is inside nothing. */
  predicate Alone(x: State, t: nat) {
    x.s.alive && x.owner == None && t !in x.flights
  }

  lemma ConnectingAlone(x: State, t: nat, id: Id, repAddr: Addr, pubAddr: Addr)
    requires Alone(x, t)
    ensures var es := Connecting(x.s, t, id, repAddr, pubAddr);
            Runs(x, es) && After(x, es) == x.(s := S.Connect(x.s, id, repAddr, pubAddr))
  {
    hide S.IdBytes, Runs, After;
    var e := BeginConnect(t, id, repAddr, pubAddr);
    if id in x.s.sockets {
      AfterOne(x, e);
    } else {
      AfterThree(x, e, Continue(t), Continue(t));
      assert Step(Step(Step(x, e), Continue(t)), Continue(t)).flights == x.flights;
    }
  }

  lemma LeavingAlone(x: State, t: nat, id: Id, pubAddr: Addr)
    requires Alone(x, t)
    ensures var es := Pieces(x.s, t, S.Leave(id, pubAddr));
            Runs(x, es) && After(x, es) == x.(s := S.Step(x.s, S.Leave(id, pubAddr)))
  {
    hide Runs, After;
    var e := BeginLeave(t, id, pubAddr);
    if id in x.s.sockets {
      AfterThree(x, e, Continue(t), Continue(t));
      assert Step(Step(Step(x, e), Continue(t)), Continue(t)).flights == x.flights;
    } else {
      AfterOne(x, e);
    }
  }

  lemma SettleBesideNumber(s: S.State, n: U64, id: U64)
    requires id in s.outstanding ==> s.outstanding[id] < |s.futures|
    ensures S.Settle(s.(nextId := n), id, S.Abandoned) == S.Settle(s, id, S.Abandoned).(nextId := n)
    ensures id !in S.Settle(s, id, S.Abandoned).outstanding
  {
  }

  /** Registering a promise and settling it at once. */
  lemma SettleRegistered(r: S.State, id: U64)
    requires id !in r.outstanding
    ensures S.Settle(r.(futures := r.futures + [S.Pending], outstanding := r.outstanding[id := |r.futures|]), id, S.TargetUnknown)
         == r.(futures := r.futures + [S.TargetUnknown])
  {
    assert r.outstanding[id := |r.futures|] - {id} == r.outstanding;
  }

  /** After two pieces of sending, the promise is registered. */
  lemma SendingRegisters(x: State, t: nat, target: Id, msg: Msg, r: S.State)
    requires Alone(x, t)
    requires r == S.Settle(x.s.(nextId := (x.s.nextId + 1) % TWO64), x.s.nextId, S.Abandoned)
    ensures Allowed(Step(x, BeginSend(t, target, msg)), Continue(t))
    ensures var x2, id := Step(Step(x, BeginSend(t, target, msg)), Continue(t)), x.s.nextId;
            && x2.s == r.(futures := r.futures + [S.Pending], outstanding := r.outstanding[id := |r.futures|])
            && x2.flights == x.flights[t := Registered(id, target, msg)] && x2.owner == None
  {
    hide S.Settle;
  }

  lemma SendingTransmits(x: State, t: nat, id: U64, target: Id, msg: Msg)
    requires t in x.flights && x.flights[t] == Registered(id, target, msg) && x.owner == None
    ensures Allowed(x, Continue(t))
    ensures Step(x, Continue(t))
         == x.(s := if target in x.s.sockets then Transmit(x.s, target, S.Request(id, S.IdBytes(x.s.self.id), msg))
                    else S.Settle(x.s, id, S.TargetUnknown),
               flights := x.flights - {t})
  {
    hide S.IdBytes, S.Settle;
  }

  lemma SendingAlone(x: State, t: nat, target: Id, msg: Msg)
    requires Alone(x, t) && (x.s.nextId in x.s.outstanding ==> x.s.outstanding[x.s.nextId] < |x.s.futures|)
    ensures var es := Pieces(x.s, t, S.Send(target, msg));
            && Runs(x, es) && After(x, es).s == S.SendRequest(x.s, target, msg)
            && After(x, es).flights == x.flights && After(x, es).owner == None
  {
    hide S.IdBytes, S.Settle, Step, Runs, After;
    var e, s, id := BeginSend(t, target, msg), x.s, x.s.nextId;
    var next := (id + 1) % TWO64;
    SettleBesideNumber(s, next, id);
    var r := S.Settle(s, id, S.Abandoned).(nextId := next);
    S.SettleFrame(s, id, S.Abandoned);
    SettleRegistered(r, id);
    SendingRegisters(x, t, target, msg, r);
    var x2 := Step(Step(x, e), Continue(t));
    SendingTransmits(x2, t, id, target, msg);
    AfterThree(x, e, Continue(t), Continue(t));
    assert x2.flights - {t} == x.flights;
  }

  lemma AnsweringAlone(x: State, t: nat, ext: S.ExtId, msg: Msg)
    requires Alone(x, t)
    ensures var es := Pieces(x.s, t, S.Answer(ext, msg));
            Runs(x, es) && After(x, es) == x.(s := S.SendReply(x.s, ext, msg))
  {
    hide Runs, After;
    var e := BeginReply(t, ext, msg);
    if ext in x.s.replies {
      AfterTwo(x, e, Continue(t));
      assert Step(x, e).flights - {t} == x.flights;
    } else {
      AfterOne(x, e);
    }
  }

  lemma DisablingAlone(x: State, t: nat)
    requires Alone(x, t)
    ensures var es := Pieces(x.s, t, S.Disable);
            Runs(x, es) && After(x, es) == x.(s := S.Step(x.s, S.Disable))
  {
    hide S.AbandonAll, Runs, After;
    AfterTwo(x, BeginDisable(t), Continue(t));
    assert Step(x, BeginDisable(t)).flights - {t} == x.flights;
  }

  lemma TopicAlone(x: State, t: nat, topic: S.Topic, add: bool)
    requires Alone(x, t)
    ensures var es := [BeginTopic(t, S.Change(topic, add)), Continue(t)];
            Runs(x, es) && After(x, es) == x.(s := S.Step(x.s, if add then S.Subscribe(topic) else S.Unsubscribe(topic)))
  {
    hide Runs, After;
    var e := BeginTopic(t, S.Change(topic, add));
    AfterTwo(x, e, Continue(t));
    assert Step(x, e).flights - {t} == x.flights;
  }

  /** The pieces of an operation that nothing comes between do what the operation does in one step. */
  lemma AloneIsOneStep(x: State, t: nat, e: S.Event)
    requires Alone(x, t) && !e.Start? && !e.Stop?
    requires x.s.nextId in x.s.outstanding ==> x.s.outstanding[x.s.nextId] < |x.s.futures|
    ensures var es := Pieces(x.s, t, e);
            && Runs(x, es) && After(x, es).s == S.Step(x.s, e)
            && After(x, es).flights == x.flights && After(x, es).owner == None
  {
    hide S.IdFrom, S.IdBytes, S.Settle, S.SendRequest, S.SendReply, Runs, After;
    var es := Pieces(x.s, t, e);
    match e {
      case Send(target, msg) => SendingAlone(x, t, target, msg);
      case Join(id, repAddr, pubAddr) => ConnectingAlone(x, t, id, repAddr, pubAddr);
      case Leave(id, pubAddr) => LeavingAlone(x, t, id, pubAddr);
      case Arrive(f) =>
        if f.Hello? { ConnectingAlone(x, t, S.IdFrom(f.sender), f.repAddr, f.pubAddr); } else { AfterOne(x, es[0]); }
      case Answer(ext, msg) => AnsweringAlone(x, t, ext, msg);
      case Cancel(_) => AfterOne(x, es[0]);
      case Notify => AfterOne(x, es[0]);
      case Disable => DisablingAlone(x, t);
      case Subscribe(topic) => TopicAlone(x, t, topic, true);
      case Unsubscribe(topic) => TopicAlone(x, t, topic, false);
    }
  }
}
