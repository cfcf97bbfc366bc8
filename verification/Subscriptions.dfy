/** The table of subscriptions and the filters of the SUB socket, across the dispatcher and the messaging service. */
module Subscriptions {
  import opened Types
  import opened Dispatch
  import M = Membership
  import S = Service

  /** The prefixes the SUB socket filters by, once the queued changes are applied. */
  function Drained(svc: S.State): multiset<Topic> {
    S.DrainedPrefixes(svc.prefixes, svc.subscriptions)
  }

  function TopicsOf(hs: seq<Handler>): multiset<Topic> {
    if hs == [] then multiset{} else TopicsOf(hs[..|hs| - 1]) + multiset{hs[|hs| - 1].topic}
  }

  ghost predicate Agree(s: State) {
    Drained(s.svc) == TopicsOf(s.handlers)
  }

  /** The service outlives the dispatcher, which ends with an empty table, and numbers are given out in order. */
  ghost predicate Regular(s: State) {
    Sorted(s.handlers) && (s.alive ==> s.svc.alive) && (!s.alive ==> s.handlers == [])
  }

  predicate HasTopic(hs: seq<Handler>, t: Topic) {
    exists i :: 0 <= i < |hs| && hs[i].topic == t
  }

  // ---- The table ----

  lemma TopicsBack(hs: seq<Handler>, h: Handler)
    ensures TopicsOf(hs + [h]) == TopicsOf(hs) + multiset{h.topic}
  {
    assert (hs + [h])[..|hs|] == hs;
  }

  lemma {:induction false} TopicsFront(hs: seq<Handler>)
    requires hs != []
    ensures TopicsOf(hs) == multiset{hs[0].topic} + TopicsOf(hs[1..])
  {
    hide TopicsOf;
    if |hs| == 1 {
      TopicsBack([], hs[0]);
      assert [] + [hs[0]] == hs && hs[1..] == [];
    } else {
      var n := |hs| - 1;
      var middle := hs[1..n];
      TopicsFront(hs[..n]);
      assert hs[..n][1..] == middle;
      TopicsBack(hs[..n], hs[n]);
      assert hs[..n] + [hs[n]] == hs;
      TopicsBack(middle, hs[n]);
      assert middle + [hs[n]] == hs[1..];
    }
  }

  lemma {:induction false} TopicsHold(hs: seq<Handler>, t: Topic)
    ensures t in TopicsOf(hs) <==> HasTopic(hs, t)
  {
    if hs != [] {
      var n := |hs| - 1;
      TopicsHold(hs[..n], t);
      if HasTopic(hs[..n], t) {
        var i :| 0 <= i < n && hs[..n][i].topic == t;
        assert hs[i].topic == t;
      } else if HasTopic(hs, t) {
        var i :| 0 <= i < |hs| && hs[i].topic == t;
        assert i < n ==> hs[..n][i].topic == t;
      }
    }
  }

  lemma TopicsCons(h: Handler, hs: seq<Handler>)
    ensures TopicsOf([h] + hs) == multiset{h.topic} + TopicsOf(hs)
  {
    TopicsFront([h] + hs);
    assert ([h] + hs)[1..] == hs;
  }

  lemma SortedCons(h: Handler, hs: seq<Handler>)
    requires Sorted(hs) && forall x :: x in hs ==> h.subId < x.subId
    ensures Sorted([h] + hs)
  {
    assert forall i :: 0 <= i < |hs| ==> hs[i] in hs;
  }

  lemma SortedRest(hs: seq<Handler>)
    requires Sorted(hs) && hs != []
    ensures Sorted(hs[1..]) && hs == [hs[0]] + hs[1..]
    ensures forall x :: x in hs[1..] ==> hs[0].subId < x.subId
  {
  }

  lemma {:induction false} InsertSorts(hs: seq<Handler>, h: Handler)
    requires Sorted(hs)
    ensures Sorted(Insert(hs, h)) && forall x :: x in Insert(hs, h) ==> x in hs || x == h
  {
    if hs == [] {
      SortedCons(h, hs);
    } else {
      SortedRest(hs);
      hide Sorted;
      if h.subId < hs[0].subId {
        SortedCons(h, hs);
      } else if h.subId > hs[0].subId {
        InsertSorts(hs[1..], h);
        SortedCons(hs[0], Insert(hs[1..], h));
      }
    }
  }

  lemma {:induction false} InsertAdds(hs: seq<Handler>, h: Handler)
    requires Sorted(hs)
    ensures HasId(hs, h.subId) ==> Insert(hs, h) == hs
    ensures !HasId(hs, h.subId) ==> TopicsOf(Insert(hs, h)) == TopicsOf(hs) + multiset{h.topic}
  {
    hide TopicsOf;
    if hs == [] || h.subId < hs[0].subId {
      NotBelowFirst(hs, h.subId);
      TopicsCons(h, hs);
    } else if h.subId > hs[0].subId {
      SortedRest(hs);
      HasIdRest(hs, h.subId);
      hide HasId, Sorted;
      InsertAdds(hs[1..], h);
      TopicsCons(hs[0], hs[1..]);
      TopicsCons(hs[0], Insert(hs[1..], h));
    }
  }

  lemma InsertTopics(hs: seq<Handler>, h: Handler)
    requires Sorted(hs)
    ensures Sorted(Insert(hs, h)) && forall x :: x in Insert(hs, h) ==> x in hs || x == h
    ensures HasId(hs, h.subId) ==> Insert(hs, h) == hs
    ensures !HasId(hs, h.subId) ==> TopicsOf(Insert(hs, h)) == TopicsOf(hs) + multiset{h.topic}
  {
    hide Insert, Sorted, HasId, TopicsOf;
    InsertSorts(hs, h);
    InsertAdds(hs, h);
  }

  lemma NotBelowFirst(hs: seq<Handler>, id: U32)
    requires Sorted(hs) && (hs == [] || id < hs[0].subId)
    ensures !HasId(hs, id)
  {
  }

  lemma HasIdRest(hs: seq<Handler>, id: U32)
    requires hs != [] && hs[0].subId != id
    ensures HasId(hs[1..], id) <==> HasId(hs, id)
  {
    if HasId(hs, id) {
      var i :| 0 <= i < |hs| && hs[i].subId == id;
      assert hs[1..][i - 1].subId == id;
    }
    if HasId(hs[1..], id) {
      var i :| 0 <= i < |hs[1..]| && hs[1..][i].subId == id;
      assert hs[i + 1].subId == id;
    }
  }

  /** The topic of the entry with this number. */
  function TopicAt(hs: seq<Handler>, id: U32): Option<Topic> {
    if hs == [] then None else if hs[0].subId == id then Some(hs[0].topic) else TopicAt(hs[1..], id)
  }

  lemma {:induction false} EraseSorts(hs: seq<Handler>, id: U32)
    requires Sorted(hs)
    ensures Sorted(Erase(hs, id)) && forall x :: x in Erase(hs, id) ==> x in hs
  {
    if hs != [] {
      SortedRest(hs);
      hide Sorted;
      if hs[0].subId != id {
        EraseSorts(hs[1..], id);
        SortedCons(hs[0], Erase(hs[1..], id));
      }
    }
  }

  lemma {:induction false} EraseTakes(hs: seq<Handler>, h: Handler)
    ensures TopicAt(hs, h.subId).None? ==> Erase(hs, h.subId) == hs
    ensures TopicAt(hs, h.subId).Some? ==>
              TopicsOf(hs) == TopicsOf(Erase(hs, h.subId)) + multiset{TopicAt(hs, h.subId).value}
  {
    hide TopicsOf;
    if hs != [] {
      assert hs == [hs[0]] + hs[1..];
      TopicsCons(hs[0], hs[1..]);
      if hs[0].subId != h.subId {
        EraseTakes(hs[1..], h);
        var rest := Erase(hs[1..], h.subId);
        TopicsCons(hs[0], rest);
        assert TopicAt(hs[1..], h.subId).Some? ==>
            TopicsOf(hs) == (multiset{hs[0].topic} + TopicsOf(rest))
                            + multiset{TopicAt(hs[1..], h.subId).value};
      } else {
        assert multiset{hs[0].topic} + TopicsOf(hs[1..]) == TopicsOf(hs[1..]) + multiset{hs[0].topic};
      }
    }
  }

  lemma EraseTopics(hs: seq<Handler>, h: Handler)
    requires Sorted(hs)
    ensures Sorted(Erase(hs, h.subId)) && forall x :: x in Erase(hs, h.subId) ==> x in hs
    ensures TopicAt(hs, h.subId).None? ==> Erase(hs, h.subId) == hs
    ensures TopicAt(hs, h.subId).Some? ==>
              TopicsOf(hs) == TopicsOf(Erase(hs, h.subId)) + multiset{TopicAt(hs, h.subId).value}
  {
    hide Erase, Sorted, TopicAt, TopicsOf;
    EraseSorts(hs, h.subId);
    EraseTakes(hs, h);
  }

  lemma {:induction false} TopicAtHandler(hs: seq<Handler>, h: Handler)
    requires Sorted(hs)
    ensures TopicAt(hs, h.subId).None? <==> !HasId(hs, h.subId)
    ensures h in hs <==> TopicAt(hs, h.subId) == Some(h.topic)
  {
    if hs != [] {
      assert hs == [hs[0]] + hs[1..];
      TopicAtHandler(hs[1..], h);
      if hs[0].subId != h.subId {
        HasIdRest(hs, h.subId);
        hide HasId;
      } else {
        assert HasId(hs, h.subId);
      }
    }
  }

  // ---- The service's side ----

  /** Only subscribing and unsubscribing change the filters to come. */
  lemma DrainedStep(svc: S.State, e: S.Event)
    requires e != S.Start
    ensures Drained(S.Step(svc, e))
         == if svc.alive && e.Subscribe? then Drained(svc) + multiset{e.topic}
            else if svc.alive && e.Unsubscribe? then Drained(svc) - multiset{e.topic}
            else Drained(svc)
    ensures S.Step(svc, e).alive == (svc.alive && e != S.Stop)
  {
    hide S.Step;
    if e.Subscribe? || e.Unsubscribe? {
      ChangeIsQueued(svc, e);
      S.DrainedPrefixesAppend(svc.prefixes, svc.subscriptions, S.Change(e.topic, e.Subscribe?));
    } else {
      FiltersStay(svc, e);
    }
  }

  lemma ChangeIsQueued(svc: S.State, e: S.Event)
    requires e.Subscribe? || e.Unsubscribe?
    ensures var r := S.Step(svc, e);
            && r.prefixes == svc.prefixes && r.alive == svc.alive
            && r.subscriptions == if svc.alive then svc.subscriptions + [S.Change(e.topic, e.Subscribe?)] else svc.subscriptions
  {
  }

  lemma FiltersStay(svc: S.State, e: S.Event)
    requires e != S.Start && !e.Subscribe? && !e.Unsubscribe?
    ensures var r := S.Step(svc, e);
            || (r.prefixes == svc.prefixes && r.subscriptions == svc.subscriptions)
            || (svc.subscriptions != [] && r.subscriptions == svc.subscriptions[1..]
                && r.prefixes == S.ApplySubscription(svc.prefixes, svc.subscriptions[0]))
    ensures S.Step(svc, e).alive == (svc.alive && e != S.Stop)
  {
    hide S.SendRequest, S.SendReply, S.IdFrom, S.IdBytes, S.ApplyMember, S.ApplySubscription, S.Settle;
    S.FramedBySending(svc, e);
    match e {
      case Cancel(reqId) => S.SettleFrame(svc, reqId, S.Abandoned);
      case Arrive(f) => if f.Reply? { S.SettleFrame(svc, f.reqId, S.Value(f.msg)); }
      case _ =>
    }
  }

  lemma {:induction false} UnsubscribeAllDrains(svc: S.State, hs: seq<Handler>)
    requires svc.alive
    ensures UnsubscribeAll(svc, hs).alive
    ensures Drained(UnsubscribeAll(svc, hs)) == Drained(svc) - TopicsOf(hs)
  {
    if hs != [] {
      var n := |hs| - 1;
      UnsubscribeAllDrains(svc, hs[..n]);
      DrainedStep(UnsubscribeAll(svc, hs[..n]), S.Unsubscribe(hs[n].topic));
      hide S.Step, Drained;
    }
  }

  // ---- Steps ----

  /** A handle that is still in the table may be unsubscribed; one that is not takes a filter away from the live
      subscriptions to its topic, unless there is none. */
  predicate Harmless(s: State, h: Handler) {
    h in s.handlers || (!HasId(s.handlers, h.subId) && !HasTopic(s.handlers, h.topic))
  }

  lemma SubscribeAgrees(s: State, topic: Topic)
    requires Agree(s) && Regular(s) && s.alive
    ensures Agree(SubscribeTo(s, topic)) <==> !HasId(s.handlers, s.subCounter)
    ensures Regular(SubscribeTo(s, topic))
  {
    InsertTopics(s.handlers, Handler(s.subCounter, topic));
    DrainedStep(s.svc, S.Subscribe(topic));
    hide S.Step, Drained, TopicsOf, HasId;
    assert (TopicsOf(s.handlers) + multiset{topic})[topic] == TopicsOf(s.handlers)[topic] + 1;
  }

  lemma UnsubscribeAgrees(s: State, h: Handler)
    requires Agree(s) && Regular(s) && s.alive
    ensures Agree(UnsubscribeFrom(s, h)) <==> Harmless(s, h)
    ensures Regular(UnsubscribeFrom(s, h))
  {
    EraseTopics(s.handlers, h);
    TopicAtHandler(s.handlers, h);
    TopicsHold(s.handlers, h.topic);
    DrainedStep(s.svc, S.Unsubscribe(h.topic));
    hide S.Step, Drained, TopicsOf, HasId, HasTopic;
    var m := TopicsOf(s.handlers);
    if TopicAt(s.handlers, h.subId).Some? {
      RemoveOne(m, TopicsOf(Erase(s.handlers, h.subId)), TopicAt(s.handlers, h.subId).value, h.topic);
    } else {
      RemoveAbsent(m, h.topic);
    }
  }

  lemma RemoveOne(m: multiset<Topic>, rest: multiset<Topic>, t: Topic, u: Topic)
    requires m == rest + multiset{t}
    ensures rest == m - multiset{u} <==> t == u
  {
    assert t != u ==> (m - multiset{u})[t] == rest[t] + 1;
  }

  lemma RemoveAbsent(m: multiset<Topic>, u: Topic)
    ensures m == m - multiset{u} <==> u !in m
  {
    assert u in m ==> (m - multiset{u})[u] == m[u] - 1;
  }

  lemma DisableAgrees(s: State)
    requires Agree(s) && Regular(s)
    ensures Agree(DisableAll(s)) && Regular(DisableAll(s)) && !DisableAll(s).alive
  {
    if s.alive {
      UnsubscribeAllDrains(s.svc, s.handlers);
      DrainedStep(UnsubscribeAll(s.svc, s.handlers), S.Disable);
      hide S.Step, Drained;
    }
  }

  /** What keeps table and filters together at this step: a fresh number to subscribe, a harmless handle to unsubscribe. */
  predicate Careful(s: State, e: Event) {
    && (e.Subscribe? && s.alive ==> !HasId(s.handlers, s.subCounter))
    && (e.Unsubscribe? && s.alive ==> Harmless(s, e.handle))
    && (e.Enable? ==> s.svc.alive)
  }

  lemma ArriveAgrees(s: State, f: S.Frame)
    requires Agree(s) && Regular(s)
    ensures Agree(TakeFrame(s, f)) && Regular(TakeFrame(s, f))
  {
    hide S.Step, S.IdFrom, SystemReply, CommandIn, Push, TopicsOf, Sorted, Drained;
    DrainedStep(s.svc, S.Arrive(f));
    if f.Request? {
      DrainedStep(S.Step(s.svc, S.Arrive(f)), S.Answer(S.ExtId(S.IdFrom(f.sender), f.reqId), SystemReply(f.msg.data)));
    }
  }

  lemma DeliverAgrees(s: State, asked: seq<bool>, reply: Option<Msg>)
    requires Agree(s) && Regular(s)
    ensures Agree(DeliverNext(s, asked, reply)) && Regular(DeliverNext(s, asked, reply))
  {
    hide S.Step, Next, Pop, TopicsOf, Sorted, Drained, Deliveries;
    if Next(s.q).Some? && Next(s.q).value.RequestItem? && reply.Some? {
      DrainedStep(s.svc, S.Answer(Next(s.q).value.ext, reply.value));
    }
  }

  lemma PeerChangeAgrees(s: State, e: Event)
    requires Agree(s) && Regular(s) && e.PeerChange?
    ensures Agree(TakePeerChange(s, e)) && Regular(TakePeerChange(s, e))
  {
    hide S.Step, Push, TopicsOf, Sorted, Drained;
    if PeerEvent(e).Some? { DrainedStep(s.svc, PeerEvent(e).value); }
  }

  /** A start finds no filter: the queue it takes over withdraws whatever it subscribes to, because it did so when the
      table was emptied. */
  lemma StartAgrees(s: State, size: int)
    requires Agree(s) && Regular(s)
    ensures Agree(Step(s, Start(size))) && Regular(Step(s, Start(size)))
    ensures Step(s, Start(size)).handlers == s.handlers
  {
    hide S.Step, Sorted;
    if !s.svc.alive {
      var self := s.svc.self;
      S.DrainedOfFewer(s.svc.prefixes, s.svc.subscriptions);
      StartedService(s.svc);
      DrainedStep(S.Step(s.svc, S.Start), S.Join(self.id, self.repAddr, self.pubAddr));
    }
  }

  lemma StartedService(svc: S.State)
    requires !svc.alive
    ensures var r := S.Step(svc, S.Start);
            r.alive && r.prefixes == multiset{} && r.subscriptions == svc.subscriptions
  {
  }

  /** The filters agree with the table after a step exactly when the step is careful. Starts and stops of the service are
      among the steps. */
  lemma StepAgreesExactlyWhenCareful(s: State, e: Event)
    requires Agree(s) && Regular(s) && (e.Enable? ==> s.svc.alive)
    ensures Agree(Step(s, e)) <==> Careful(s, e)
    ensures Regular(Step(s, e))
  {
    hide S.Step, S.IdFrom, Harmless, HasId, TopicsOf, Sorted, Drained;
    hide TakeFrame, TakePeerChange, DeliverNext, DisableAll, SubscribeTo, UnsubscribeFrom, Drops;
    match e {
      case Start(size) => StartAgrees(s, size);
      case Stop =>
        DisableAgrees(s);
        DrainedStep(DisableAll(s).svc, S.Stop);
      case Disable => DisableAgrees(s);
      case Arrive(f) => ArriveAgrees(s, f);
      case Notify => DrainedStep(s.svc, S.Notify);
      case PeerChange(_, _, _, _, _) => PeerChangeAgrees(s, e);
      case Subscribe(topic) => SubscribeSteps(s, topic);
      case Unsubscribe(h) => UnsubscribeSteps(s, h);
      case Send(target, msg) => DrainedStep(s.svc, S.Send(target, msg));
      case Cancel(id) => DrainedStep(s.svc, S.Cancel(id));
      case Deliver(asked, reply) => DeliverAgrees(s, asked, reply);
      case _ =>
    }
  }

  lemma SubscribeSteps(s: State, topic: Topic)
    requires Agree(s) && Regular(s)
    ensures Agree(SubscribeTo(s, topic)) <==> Careful(s, Subscribe(topic))
    ensures Regular(SubscribeTo(s, topic))
  {
    if s.alive { SubscribeAgrees(s, topic); }
  }

  lemma UnsubscribeSteps(s: State, h: Handler)
    requires Agree(s) && Regular(s)
    ensures Agree(UnsubscribeFrom(s, h)) <==> Careful(s, Unsubscribe(h))
    ensures Regular(UnsubscribeFrom(s, h))
  {
    if s.alive { UnsubscribeAgrees(s, h); }
  }

  // ---- Runs ----

  /** The calls of subscribe in a run. */
  function Subscribed(es: seq<Event>): nat {
    if es == [] then 0 else Subscribed(es[..|es| - 1]) + if es[|es| - 1].Subscribe? then 1 else 0
  }

  /** Numbers in the table are below the next one. */
  ghost predicate Numbered(s: State, n: nat) {
    s.subCounter <= n && forall h :: h in s.handlers ==> h.subId < s.subCounter
  }

  /** What a step does to the table and the counter. */
  lemma TableStep(s: State, e: Event)
    ensures Step(s, e).subCounter == if s.alive && e.Subscribe? then (s.subCounter + 1) % TWO32 else s.subCounter
    ensures Step(s, e).handlers == if !s.alive then s.handlers
                                   else if e.Subscribe? then Insert(s.handlers, Handler(s.subCounter, e.topic))
                                   else if e.Unsubscribe? then Erase(s.handlers, e.handle.subId)
                                   else if e.Disable? || e.Stop? then (if s.svc.alive then [] else s.handlers)
                                   else s.handlers
  {
    hide S.Step, S.IdFrom, SystemReply, CommandIn, Push, Pop, Next, Deliveries, UnsubscribeAll, Drops, Insert, Erase;
  }

  lemma StepKeepsNumbers(s: State, e: Event, n: nat)
    requires Numbered(s, n) && Sorted(s.handlers) && (if e.Subscribe? then n + 1 else n) < TWO32
    ensures Numbered(Step(s, e), if e.Subscribe? then n + 1 else n)
    ensures e.Subscribe? ==> !HasId(s.handlers, s.subCounter)
  {
    hide Step, TopicsOf, Insert, Erase;
    TableStep(s, e);
    if e.Subscribe? { InsertTopics(s.handlers, Handler(s.subCounter, e.topic)); }
    if e.Unsubscribe? { EraseTopics(s.handlers, e.handle); }
    hide Sorted;
  }

  /** The dispatcher is enabled only while the service lives, and handles are unsubscribed only when that is harmless. */
  ghost predicate CarefulRun(s: State, es: seq<Event>) {
    forall i :: 0 <= i < |es| ==>
      && (es[i].Enable? ==> Run(s, es[..i]).svc.alive)
      && (es[i].Unsubscribe? && Run(s, es[..i]).alive ==> Harmless(Run(s, es[..i]), es[i].handle))
  }

  /** Nothing is subscribed, as at first and after every stop. */
  ghost predicate NothingSubscribed(s: State) {
    s.handlers == [] && Drained(s.svc) == multiset{} && (s.alive ==> s.svc.alive)
  }

  lemma BeginningAgrees(s: State)
    requires NothingSubscribed(s)
    ensures Agree(s) && Regular(s) && Numbered(s, s.subCounter)
  {
  }

  /** While the numbers last and with careful unsubscribing, filters and table agree at every step of every run, across
      any number of disables, stops and starts. */
  lemma {:induction false} FiltersAgreeWithTable(s: State, es: seq<Event>)
    requires NothingSubscribed(s) && CarefulRun(s, es) && s.subCounter + Subscribed(es) < TWO32
    ensures Agree(Run(s, es)) && Regular(Run(s, es)) && Numbered(Run(s, es), s.subCounter + Subscribed(es))
  {
    hide Step, Agree, Numbered, Harmless, HasId, NothingSubscribed, Sorted;
    if es == [] {
      BeginningAgrees(s);
    } else {
      var before, e := es[..|es| - 1], es[|es| - 1];
      var r := Run(s, before);
      assert CarefulRun(s, before) by {
        assert forall i :: 0 <= i < |before| ==> es[..i] == before[..i];
      }
      FiltersAgreeWithTable(s, before);
      StepKeepsNumbers(r, e, s.subCounter + Subscribed(before));
      StepAgreesExactlyWhenCareful(r, e);
    }
  }

  // ---- Care, from the calls alone ----

  /** What a caller can know: whether service and dispatcher are alive, the next number, and the handles it was handed
      since the last disable and has not unsubscribed. */
  datatype Account = Account(running: bool, alive: bool, next: U32, live: set<Handler>)

  function Enter(a: Account, e: Event): Account {
    if e.Start? then a.(running := true)
    else if e.Enable? then a.(alive := true)
    else if e.Stop? then a.(running := false, alive := false, live := {})
    else if e.Disable? then a.(alive := false, live := {})
    else if !a.alive then a
    else if e.Subscribe? then a.(next := (a.next + 1) % TWO32, live := a.live + {Handler(a.next, e.topic)})
    else if e.Unsubscribe? then a.(live := a.live - {e.handle})
    else a
  }

  function Tally(a: Account, es: seq<Event>): Account {
    if es == [] then a else Enter(Tally(a, es[..|es| - 1]), es[|es| - 1])
  }

  /** Every handle is unsubscribed at most once, and not after a disable; nothing is enabled while the service is
      stopped. */
  ghost predicate Thoughtful(a: Account, es: seq<Event>) {
    forall i :: 0 <= i < |es| ==>
      && (es[i].Enable? ==> Tally(a, es[..i]).running)
      && (es[i].Unsubscribe? && Tally(a, es[..i]).alive ==> es[i].handle in Tally(a, es[..i]).live)
  }

  /** The account is right about the state. */
  ghost predicate Accounts(a: Account, s: State) {
    && a.running == s.svc.alive && a.alive == s.alive && a.next == s.subCounter && (!s.alive ==> s.handlers == [])
    && forall h :: h in a.live <==> h in s.handlers
  }

  lemma {:induction false} InsertElements(hs: seq<Handler>, h: Handler)
    requires !HasId(hs, h.subId)
    ensures forall x :: x in Insert(hs, h) <==> x in hs || x == h
  {
    if hs != [] && h.subId >= hs[0].subId {
      HasIdRest(hs, h.subId);
      assert hs == [hs[0]] + hs[1..];
      hide HasId;
      InsertElements(hs[1..], h);
    }
  }

  lemma {:induction false} EraseElements(hs: seq<Handler>, h: Handler)
    requires Sorted(hs) && h in hs
    ensures forall x :: x in Erase(hs, h.subId) <==> x in hs && x != h
  {
    assert hs == [hs[0]] + hs[1..];
    if hs[0].subId == h.subId {
      assert h == hs[0];
    } else {
      EraseElements(hs[1..], h);
    }
  }

  lemma ServiceLives(s: State, e: Event)
    requires s.alive ==> s.svc.alive
    ensures Step(s, e).svc.alive == (e.Start? || (s.svc.alive && !e.Stop?))
    ensures Step(s, e).alive == if e.Enable? then true else if e.Stop? || e.Disable? then false else s.alive
  {
    hide S.Step, S.IdFrom, Push, Pop, Next, Deliveries, Drops, Insert, Erase, DisableAll, TakeFrame, PeerEvent;
    match e {
      case Start(_) =>
        if !s.svc.alive {
          var self := s.svc.self;
          StartedService(s.svc);
          ServiceStepLives(S.Step(s.svc, S.Start), S.Join(self.id, self.repAddr, self.pubAddr));
        }
      case Stop =>
        DisableLives(s);
        ServiceStepLives(DisableAll(s).svc, S.Stop);
      case Disable => DisableLives(s);
      case Arrive(f) => FrameLives(s, f);
      case Notify => ServiceStepLives(s.svc, S.Notify);
      case PeerChange(_, _, _, _, _) =>
        PeerEventGoesOn(e);
        if PeerEvent(e).Some? { ServiceStepLives(s.svc, PeerEvent(e).value); }
      case Subscribe(topic) => ServiceStepLives(s.svc, S.Subscribe(topic));
      case Unsubscribe(h) => ServiceStepLives(s.svc, S.Unsubscribe(h.topic));
      case Send(target, msg) => ServiceStepLives(s.svc, S.Send(target, msg));
      case Cancel(id) => ServiceStepLives(s.svc, S.Cancel(id));
      case Deliver(_, reply) =>
        var i := Next(s.q);
        if i.Some? && i.value.RequestItem? && reply.Some? { ServiceStepLives(s.svc, S.Answer(i.value.ext, reply.value)); }
      case _ =>
    }
  }

  lemma PeerEventGoesOn(e: Event)
    requires e.PeerChange?
    ensures PeerEvent(e).Some? ==> PeerEvent(e).value != S.Start && PeerEvent(e).value != S.Stop
  {
  }

  lemma DisableLives(s: State)
    requires s.alive ==> s.svc.alive
    ensures DisableAll(s).svc.alive == s.svc.alive && !DisableAll(s).alive
  {
    hide S.Step, UnsubscribeAll;
    if s.alive {
      UnsubscribeAllDrains(s.svc, s.handlers);
      ServiceStepLives(UnsubscribeAll(s.svc, s.handlers), S.Disable);
    }
  }

  lemma FrameLives(s: State, f: S.Frame)
    ensures TakeFrame(s, f).svc.alive == s.svc.alive && TakeFrame(s, f).alive == s.alive
  {
    hide S.Step, S.IdFrom, SystemReply, CommandIn, Push;
    ServiceStepLives(s.svc, S.Arrive(f));
    if f.Request? {
      var ext := S.ExtId(S.IdFrom(f.sender), f.reqId);
      ServiceStepLives(S.Step(s.svc, S.Arrive(f)), S.Answer(ext, SystemReply(f.msg.data)));
    }
  }

  lemma ServiceStepLives(svc: S.State, e: S.Event)
    requires e != S.Start
    ensures S.Step(svc, e).alive == (svc.alive && e != S.Stop)
  {
    hide S.Step;
    DrainedStep(svc, e);
  }

  lemma AccountStep(a: Account, s: State, e: Event)
    requires Accounts(a, s) && Regular(s)
    requires e.Subscribe? ==> !HasId(s.handlers, s.subCounter)
    requires e.Unsubscribe? && a.alive ==> e.handle in a.live
    ensures Accounts(Enter(a, e), Step(s, e))
    ensures e.Unsubscribe? && s.alive ==> Harmless(s, e.handle)
  {
    hide Step, Insert, Erase;
    ServiceLives(s, e);
    TableStep(s, e);
    if s.alive && e.Subscribe? { InsertElements(s.handlers, Handler(s.subCounter, e.topic)); }
    if s.alive && e.Unsubscribe? { EraseElements(s.handlers, e.handle); }
    hide Sorted, HasId;
  }

  lemma AccountRuns(a: Account, s: State)
    requires Accounts(a, s)
    ensures a.running == s.svc.alive && a.alive == s.alive
  {
  }

  lemma ThoughtfulFront(a: Account, es: seq<Event>)
    requires es != [] && Thoughtful(a, es)
    ensures var n := |es| - 1;
            && Thoughtful(a, es[..n])
            && (es[n].Enable? ==> Tally(a, es[..n]).running)
            && (es[n].Unsubscribe? && Tally(a, es[..n]).alive ==> es[n].handle in Tally(a, es[..n]).live)
  {
    hide Tally;
    var n := |es| - 1;
    assert forall i :: 0 <= i < n ==> es[..i] == es[..n][..i];
  }

  /** With thoughtful calls the run is careful, and the account stays right. */
  lemma {:induction false} ThoughtfulIsCareful(a: Account, s: State, es: seq<Event>)
    requires NothingSubscribed(s) && Accounts(a, s) && Thoughtful(a, es) && s.subCounter + Subscribed(es) < TWO32
    ensures CarefulRun(s, es) && Accounts(Tally(a, es), Run(s, es))
  {
    hide Step, Enter, Accounts, Harmless, Agree, Numbered, HasId, NothingSubscribed, Sorted, Thoughtful;
    if es != [] {
      hide CarefulRun;
      var n := |es| - 1;
      var before, e := es[..n], es[n];
      ThoughtfulFront(a, es);
      ThoughtfulIsCareful(a, s, before);
      FiltersAgreeWithTable(s, before);
      var r := Run(s, before);
      StepKeepsNumbers(r, e, s.subCounter + Subscribed(before));
      AccountRuns(Tally(a, before), r);
      AccountStep(Tally(a, before), r, e);
      CarefulOneMore(s, es);
    }
  }

  lemma CarefulOneMore(s: State, es: seq<Event>)
    requires es != [] && CarefulRun(s, es[..|es| - 1])
    requires var n := |es| - 1;
             var r := Run(s, es[..n]);
             && (es[n].Enable? ==> r.svc.alive)
             && (es[n].Unsubscribe? && r.alive ==> Harmless(r, es[n].handle))
    ensures CarefulRun(s, es)
  {
    hide Run, Harmless;
    var n := |es| - 1;
    forall i | 0 <= i < |es|
      ensures es[i].Enable? ==> Run(s, es[..i]).svc.alive
      ensures es[i].Unsubscribe? && Run(s, es[..i]).alive ==> Harmless(Run(s, es[..i]), es[i].handle)
    {
      if i < n {
        assert es[..n][i] == es[i] && es[..n][..i] == es[..i];
      }
    }
  }

  /** For callers: when every handle is unsubscribed at most once and not after a disable, filters and table agree at every
      step, and the table holds exactly the handles that are live. */
  lemma ThoughtfulCallersAgree(a: Account, s: State, es: seq<Event>)
    requires NothingSubscribed(s) && Accounts(a, s) && Thoughtful(a, es) && s.subCounter + Subscribed(es) < TWO32
    ensures Agree(Run(s, es)) && forall h :: h in Tally(a, es).live <==> h in Run(s, es).handlers
  {
    ThoughtfulIsCareful(a, s, es);
    FiltersAgreeWithTable(s, es);
    hide Run, Agree, Tally;
  }

  /** Once the changes are applied, a message passes the filters exactly when delivering it finds a handler. */
  lemma FilterPassesExactlyWhenHandled(s: State, msg: Msg, sender: Id)
    requires Agree(s) && s.svc.subscriptions == []
    ensures (exists p :: p in s.svc.prefixes && p <= msg.topic) <==> Matching(s.handlers, msg, sender) != []
  {
    MatchingFinds(s.handlers, msg, sender);
    forall p
      ensures p in s.svc.prefixes <==> HasTopic(s.handlers, p)
    {
      TopicsHold(s.handlers, p);
    }
    if i :| 0 <= i < |s.handlers| && s.handlers[i].topic <= msg.topic {
      assert HasTopic(s.handlers, s.handlers[i].topic);
    }
  }

  // ---- Catching up after a restart ----

  /** The service is not stopped. */
  predicate WithinEpoch(es: seq<Event>) {
    forall i :: 0 <= i < |es| ==> !es[i].Stop?
  }

  lemma CallsWithinEpoch(x: State, e: Event)
    requires !e.Stop?
    ensures S.WithinEpoch(M.Calls(x, e))
  {
    hide S.IdFrom, Next, SystemReply;
  }

  lemma StepKeepsUntokened(s: State, e: Event)
    requires s.svc.alive && !e.Stop? && S.Untokened(s.svc) >= 0
    ensures Step(s, e).svc.alive && S.Untokened(Step(s, e).svc) == S.Untokened(s.svc)
  {
    hide Step, M.Calls, S.WithinEpoch, S.Untokened, S.Run;
    M.StepRunsService(s, e);
    CallsWithinEpoch(s, e);
    S.RunKeepsUntokened(s.svc, M.Calls(s, e));
  }

  lemma {:induction false} RunKeepsUntokened(s: State, es: seq<Event>)
    requires s.svc.alive && WithinEpoch(es) && S.Untokened(s.svc) >= 0
    ensures Run(s, es).svc.alive && S.Untokened(Run(s, es).svc) == S.Untokened(s.svc)
  {
    hide Step, S.Untokened;
    if es != [] {
      var n := |es| - 1;
      RunKeepsUntokened(s, es[..n]);
      StepKeepsUntokened(Run(s, es[..n]), es[n]);
    }
  }

  function Notifies(n: nat): seq<Event> {
    seq(n, i requires 0 <= i < n => Notify)
  }

  lemma {:induction false} NotifiesRunService(s: State, n: nat)
    ensures Run(s, Notifies(n)).svc == S.Run(s.svc, S.Notifies(n))
  {
    hide S.Step;
    if n > 0 {
      NotifiesRunService(s, n - 1);
      assert Notifies(n)[..n - 1] == Notifies(n - 1) && S.Notifies(n)[..n - 1] == S.Notifies(n - 1);
      hide Notifies;
    }
  }

  lemma {:induction false} UnsubscribeAllQueues(svc: S.State, hs: seq<Handler>)
    requires svc.alive
    ensures UnsubscribeAll(svc, hs).alive && |UnsubscribeAll(svc, hs).subscriptions| == |svc.subscriptions| + |hs|
  {
    if hs != [] {
      var n := |hs| - 1;
      UnsubscribeAllQueues(svc, hs[..n]);
      hide S.Step;
      ChangeIsQueued(UnsubscribeAll(svc, hs[..n]), S.Unsubscribe(hs[n].topic));
    }
  }

  /** At a stop every handler's withdrawal is queued behind what is queued already; the next start takes the queue over and
      drops the tokens. */
  lemma RestartUntokens(s: State, size: int)
    requires s.svc.alive && Regular(s)
    ensures var r := Step(Step(s, Stop), Start(size));
            r.svc.alive && S.Untokened(r.svc) == |s.svc.subscriptions| + |s.handlers|
  {
    hide S.Step, Sorted;
    if s.alive {
      UnsubscribeAllQueues(s.svc, s.handlers);
      DisableKeepsQueue(UnsubscribeAll(s.svc, s.handlers));
    }
    var svc := DisableAll(s).svc;
    StoppedThenStarted(svc);
    hide DisableAll, UnsubscribeAll;
    var start := S.Step(S.Step(svc, S.Stop), S.Start);
    S.StepKeepsUntokened(start, S.Join(start.self.id, start.self.repAddr, start.self.pubAddr));
  }

  lemma DisableKeepsQueue(svc: S.State)
    ensures S.Step(svc, S.Disable).subscriptions == svc.subscriptions && S.Step(svc, S.Disable).alive == svc.alive
  {
  }

  lemma StoppedThenStarted(svc: S.State)
    requires svc.alive
    ensures !S.Step(svc, S.Stop).alive && S.Step(svc, S.Stop).self == svc.self
    ensures var start := S.Step(S.Step(svc, S.Stop), S.Start);
            start.alive && start.self == svc.self && S.Untokened(start) == |svc.subscriptions|
  {
  }

  /** After a stop and a start, at any moment of the new epoch: the SUB socket can catch up with the table exactly when at the
      stop nothing was queued and nothing subscribed. Otherwise as many changes always wait as were left. */
  lemma CatchesUpAfterRestartIffDrained(s: State, size: int, es: seq<Event>)
    requires s.svc.alive && Regular(s) && WithinEpoch(es)
    ensures var r := Run(Step(Step(s, Stop), Start(size)), es);
            && |r.svc.subscriptions| >= |s.svc.subscriptions| + |s.handlers|
            && ((exists later :: WithinEpoch(later) && Run(r, later).svc.subscriptions == [])
                <==> s.svc.subscriptions == [] && s.handlers == [])
  {
    hide Step, Regular;
    RestartUntokens(s, size);
    var start := Step(Step(s, Stop), Start(size));
    RunKeepsUntokened(start, es);
    var r := Run(start, es);
    hide Run;
    if later :| WithinEpoch(later) && Run(r, later).svc.subscriptions == [] {
      RunKeepsUntokened(r, later);
    }
    if S.Untokened(r.svc) == 0 { NotifiesCatchUp(r); }
  }

  lemma NotifiesCatchUp(r: State)
    requires r.svc.alive && S.Untokened(r.svc) == 0
    ensures exists later :: WithinEpoch(later) && Run(r, later).svc.subscriptions == []
  {
    hide Step, S.Step, S.Run, Run;
    var n := |r.svc.tokens|;
    var later := Notifies(n);
    S.NotifiesTake(r.svc, n);
    NotifiesRunService(r, n);
    assert WithinEpoch(later);
    RunKeepsUntokened(r, later);
    assert Run(r, later).svc.tokens == [] && S.CountTokens([], S.SubscriptionChange) == 0;
  }

  lemma {:induction false} MatchingFinds(hs: seq<Handler>, msg: Msg, sender: Id)
    ensures Matching(hs, msg, sender) != [] <==> exists i :: 0 <= i < |hs| && hs[i].topic <= msg.topic
  {
    if hs != [] {
      var n := |hs| - 1;
      MatchingFinds(hs[..n], msg, sender);
      if i :| 0 <= i < |hs| && hs[i].topic <= msg.topic {
        assert i < n ==> hs[..n][i].topic <= msg.topic;
      }
    }
  }

  /** Unsubscribing one handle twice takes the filter of another live subscription to the same topic. */
  lemma UnsubscribedTwice(s: State, topic: Topic)
    requires s.alive && s.svc.alive && s.handlers == [] && s.subCounter == 0 && Drained(s.svc) == multiset{}
    ensures var once := Handler(0, topic);
            var r := UnsubscribeFrom(UnsubscribeFrom(SubscribeTo(SubscribeTo(s, topic), topic), once), once);
            r.handlers == [Handler(1, topic)] && Drained(r.svc) == multiset{}
  {
    var once := Handler(0, topic);
    var s1 := SubscribeTo(s, topic);
    assert s1.handlers == [once];
    var s2 := SubscribeTo(s1, topic);
    assert Insert([once], Handler(1, topic)) == [once] + Insert([], Handler(1, topic));
    assert s2.handlers == [once, Handler(1, topic)];
    var s3 := UnsubscribeFrom(s2, once);
    assert s3.handlers == [Handler(1, topic)];
    assert Erase([Handler(1, topic)], 0) == [Handler(1, topic)] + Erase([], 0);
    DrainedStep(s.svc, S.Subscribe(topic));
    DrainedStep(s1.svc, S.Subscribe(topic));
    DrainedStep(s2.svc, S.Unsubscribe(topic));
    DrainedStep(s3.svc, S.Unsubscribe(topic));
    hide S.Step, Drained;
  }
}
