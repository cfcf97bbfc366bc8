/** What the calls on a messaging service bring about, read off the history of those calls: which peers have a request
    socket, which requests wait for a reply, and what becomes of every future. */
module Connections {
  import opened Types
  import opened Service
  import Wire

  // ---- One call ----

  /** Joining and leaving: the peer's socket alone changes, and SUB, once it has caught up, follows it. A peer that is
      connected does not join again, and one that is not does not leave. */
  lemma JoinOpensLeaveCloses(pub: map<Id, Addr>, s: State, id: Id, repAddr: Addr)
    requires s.alive && OneAddressEach(pub) && MembersAgree(pub, s) && id in pub
    ensures var r := Step(s, Join(id, repAddr, pub[id]));
            && r.sockets == (if id in s.sockets then s.sockets else s.sockets[id := repAddr])
            && pub[id] in DrainedMembers(r.connected, r.members)
    ensures var r := Step(s, Leave(id, pub[id]));
            r.sockets == s.sockets - {id} && pub[id] !in DrainedMembers(r.connected, r.members)
    ensures Step(s, if id in s.sockets then Join(id, repAddr, pub[id]) else Leave(id, pub[id])) == s
  {
    ConnectAgrees(pub, s, id, repAddr);
    hide DrainedMembers;
  }

  /** The notify channel: a token that is sent goes to the back, the poller takes the one in front. A token is sent for a
      filter, for a peer connected or disconnected, and at the stop. */
  lemma TokensQueueUp(s: State, e: Event)
    requires s.alive
    ensures Step(s, e).tokens
         == if e.Notify? then (if s.tokens == [] then [] else s.tokens[1..])
            else s.tokens + (if e.Stop? then [Shutdown]
                             else if e.Subscribe? || e.Unsubscribe? then [SubscriptionChange]
                             else if Step(s, e).sockets.Keys != s.sockets.Keys then [MembershipChange]
                             else [])
  {
    hide IdFrom, IdBytes, Settle, ApplyMember, ApplySubscription;
    match e {
      case Send(_, _) => SettleFrame(s, s.nextId, Abandoned);
      case Cancel(reqId) => SettleFrame(s, reqId, Abandoned);
      case Join(id, repAddr, pubAddr) => SocketKeys(s, id, repAddr, pubAddr);
      case Leave(id, pubAddr) => SocketKeys(s, id, Addr(0, 0), pubAddr);
      case Arrive(f) =>
        if f.Reply? { SettleFrame(s, f.reqId, Value(f.msg)); }
        if f.Hello? { SocketKeys(s, IdFrom(f.sender), f.repAddr, f.pubAddr); }
      case _ =>
    }
  }

  lemma SocketKeys(s: State, id: Id, repAddr: Addr, pubAddr: Addr)
    ensures Connect(s, id, repAddr, pubAddr).sockets.Keys != s.sockets.Keys <==> id !in s.sockets
    ensures Disconnect(s, id, pubAddr).sockets.Keys != s.sockets.Keys <==> id in s.sockets
  {
    assert id !in s.sockets ==> id in Connect(s, id, repAddr, pubAddr).sockets.Keys;
    assert id in s.sockets ==> id !in Disconnect(s, id, pubAddr).sockets.Keys;
  }

  /** Of an identity whose fields do not arrive, type and instance read as zero. */
  lemma AbsentIdentityIsZero(sender: Wire.SenderId)
    ensures IdFrom(Wire.SerializeSender(sender))
         == Id(if sender.typeId.Some? then sender.typeId.value % 65536 else 0,
               if sender.instanceId.Some? then sender.instanceId.value else 0)
  {
    hide Wire.ParseSender, Wire.SerializeSender;
    Wire.SenderRoundTrip(Wire.EMPTY_SENDER, sender);
  }

  /** Disabling drops every promise and every waiting request, and nothing else. */
  lemma DisableDrops(s: State)
    requires s.alive && Conserved(s)
    ensures var r := Step(s, Disable);
            && r.outstanding == map[] && r.replies == map[]
            && r == s.(futures := r.futures, outstanding := r.outstanding, replies := r.replies)
            && |r.futures| == |s.futures|
            && forall k :: 0 <= k < |s.futures| ==> r.futures[k] == if s.futures[k] == Pending then Abandoned else s.futures[k]
  {
  }

  /** Stopping drops every promise and every socket. */
  lemma StopDrops(s: State)
    requires s.alive && Conserved(s)
    ensures var r := Step(s, Stop);
            && !r.alive && r.outstanding == map[] && r.sockets == map[]
            && |r.futures| == |s.futures|
            && forall k :: 0 <= k < |s.futures| ==> r.futures[k] == if s.futures[k] == Pending then Abandoned else s.futures[k]
  {
  }

  /** The calls that drop the promise with a number: it is cancelled, or the numbers have come round to it. */
  predicate Drops(s: State, e: Event, number: U64) {
    e.Disable? || e.Stop? || (e.Cancel? && e.reqId == number) || (e.Send? && s.nextId == number)
  }

  /** A pending future gets the value of the reply that carries its number, is abandoned by exactly the calls that drop its
      promise, and is pending still after any other. */
  lemma PendingSettlesExactly(s: State, e: Event, k: nat)
    requires s.alive && Conserved(s) && k < |s.futures| && s.futures[k] == Pending
    ensures k < |Step(s, e).futures|
    ensures Step(s, e).futures[k]
         == if Drops(s, e, k % TWO64) then Abandoned
            else if e.Arrive? && e.frame.Reply? && e.frame.reqId == k % TWO64 then Value(e.frame.msg)
            else Pending
  {
    hide IdFrom, IdBytes, Settle, Paired;
    assert Numbers(|s.futures|)[k] == k % TWO64;
    match e {
      case Send(_, _) => SettleAt(s, Numbers(|s.futures|), s.nextId, Abandoned, k);
      case Cancel(reqId) => SettleAt(s, Numbers(|s.futures|), reqId, Abandoned, k);
      case Arrive(f) => if f.Reply? { SettleAt(s, Numbers(|s.futures|), f.reqId, Value(f.msg), k); }
      case _ =>
    }
  }

  // ---- Histories ----

  /** The service was started there and not stopped since. */
  ghost predicate UpSince(es: seq<Event>, i: int) {
    0 <= i < |es| && es[i] == Start && forall k :: i < k < |es| ==> es[k] != Stop
  }

  ghost predicate Up(es: seq<Event>) {
    exists i :: UpSince(es, i)
  }

  lemma UpLater(es: seq<Event>, e: Event)
    ensures Up(es + [e]) == (e == Start || (Up(es) && e != Stop))
  {
    var all, n := es + [e], |es|;
    assert forall k :: 0 <= k < n ==> all[k] == es[k];
    assert all[n] == e;
    if e == Start { assert UpSince(all, n); }
    if i :| UpSince(all, i) { assert i == n || UpSince(es, i); }
    if i :| UpSince(es, i) { assert e != Stop ==> UpSince(all, i); }
  }

  lemma AliveStep(s: State, e: Event)
    ensures Step(s, e).alive == (e == Start || (s.alive && e != Stop))
  {
    if s.alive && e != Stop && e != Start { StaysAlive(s, e); }
  }

  lemma {:induction false} AliveExactlyWhenUp(self: Self, es: seq<Event>)
    ensures Run(Initial(self), es).alive == Up(es)
  {
    hide Step, Up;
    if es == [] {
      assert !Up(es) by { NeverUp(); }
    } else {
      var n := |es| - 1;
      AliveExactlyWhenUp(self, es[..n]);
      AliveStep(Run(Initial(self), es[..n]), es[n]);
      UpLater(es[..n], es[n]);
      assert es[..n] + [es[n]] == es;
    }
  }

  lemma NeverUp()
    ensures !Up([])
  {
  }

  /** The call connects the peer: it joins, or greets. */
  predicate Opens(e: Event, id: Id) {
    (e.Join? && e.id == id) || (e.Arrive? && e.frame.Hello? && IdFrom(e.frame.sender) == id)
  }

  function AddressIn(e: Event): Addr {
    if e.Join? then e.repAddr else if e.Arrive? && e.frame.Hello? then e.frame.repAddr else Addr(0, 0)
  }

  /** The call takes the peer's socket away. */
  predicate Closes(e: Event, id: Id) {
    (e.Leave? && e.id == id) || e.Stop?
  }

  /** The peer was connected there, and not disconnected since. */
  ghost predicate OpenSince(es: seq<Event>, id: Id, j: int) {
    0 <= j < |es| && Opens(es[j], id) && Up(es[..j]) && forall k :: j < k < |es| ==> !Closes(es[k], id)
  }

  /** The first such moment: later ones find a socket. */
  ghost predicate FirstOpen(es: seq<Event>, id: Id, j: int) {
    OpenSince(es, id, j) && forall i :: i < j ==> !OpenSince(es, id, i)
  }

  lemma OpenLater(es: seq<Event>, e: Event, id: Id, j: int)
    ensures OpenSince(es + [e], id, j)
       <==> (if j == |es| then Opens(e, id) && Up(es) else OpenSince(es, id, j) && !Closes(e, id))
  {
    hide Up, Opens, Closes;
    var all, n := es + [e], |es|;
    assert forall k :: 0 <= k < n ==> all[k] == es[k];
    assert all[n] == e && all[..n] == es;
    if 0 <= j < n { assert all[..j] == es[..j]; }
  }

  /** Who has a socket, and which, after a history of calls. */
  ghost predicate SocketFits(es: seq<Event>, sockets: map<Id, Addr>, id: Id) {
    && (id in sockets <==> exists j :: OpenSince(es, id, j))
    && forall j :: FirstOpen(es, id, j) ==> id in sockets && sockets[id] == AddressIn(es[j])
  }

  /** What one call does to the socket of one peer. */
  lemma SocketStep(s: State, e: Event, id: Id)
    ensures id in Step(s, e).sockets <==> (id in s.sockets && !(s.alive && Closes(e, id))) || (s.alive && Opens(e, id))
    ensures id in Step(s, e).sockets ==>
              Step(s, e).sockets[id] == if id in s.sockets then s.sockets[id] else AddressIn(e)
  {
    hide IdFrom, IdBytes, Settle;
    match e {
      case Send(_, _) => SettleFrame(s, s.nextId, Abandoned);
      case Cancel(reqId) => SettleFrame(s, reqId, Abandoned);
      case Arrive(f) => if f.Reply? { SettleFrame(s, f.reqId, Value(f.msg)); }
      case _ =>
    }
  }

  lemma OpenOnlyWhileUp(es: seq<Event>, id: Id, j: int)
    requires OpenSince(es, id, j)
    ensures Up(es)
  {
    var i :| UpSince(es[..j], i);
    assert UpSince(es, i) by {
      forall k | i < k < |es|
        ensures es[k] != Stop
      {
        if k < j { assert es[..j][k] == es[k]; }
      }
    }
  }

  lemma SocketLater(es: seq<Event>, s: State, e: Event, id: Id)
    requires SocketFits(es, s.sockets, id) && s.alive == Up(es)
    ensures SocketFits(es + [e], Step(s, e).sockets, id)
  {
    SocketStep(s, e, id);
    hide Step, Opens, Closes, AddressIn;
    forall j
      ensures OpenSince(es + [e], id, j)
         <==> (if j == |es| then Opens(e, id) && Up(es) else OpenSince(es, id, j) && !Closes(e, id))
      ensures OpenSince(es, id, j) ==> 0 <= j < |es| && Up(es)
    {
      OpenLater(es, e, id, j);
      if OpenSince(es, id, j) { OpenOnlyWhileUp(es, id, j); }
    }
    hide OpenSince, Up;
    var r := Step(s, e);
    assert OpenSince(es + [e], id, |es|) <==> Opens(e, id) && s.alive;
    OpenExistsLater(es, e, id);
    forall j | FirstOpen(es + [e], id, j)
      ensures id in r.sockets && r.sockets[id] == AddressIn((es + [e])[j])
    {
      assert OpenSince(es + [e], id, j);
      if j < |es| {
        FirstOpenEarlier(es, e, id, j);
        assert (es + [e])[j] == es[j];
      } else {
        assert (es + [e])[j] == e;
        NotOpenBefore(es, e, id);
      }
    }
  }

  lemma OpenExistsLater(es: seq<Event>, e: Event, id: Id)
    ensures (exists j :: OpenSince(es + [e], id, j))
       <==> (Up(es) && Opens(e, id)) || ((exists j :: OpenSince(es, id, j)) && !Closes(e, id))
  {
    hide OpenSince, Up, Opens, Closes;
    forall j
      ensures OpenSince(es + [e], id, j)
         <==> (if j == |es| then Opens(e, id) && Up(es) else OpenSince(es, id, j) && !Closes(e, id))
    {
      OpenLater(es, e, id, j);
    }
    InHistory(es, id);
    if Up(es) && Opens(e, id) { assert OpenSince(es + [e], id, |es|); }
    if !Closes(e, id) {
      if j :| OpenSince(es, id, j) { assert OpenSince(es + [e], id, j); }
    }
  }

  lemma InHistory(es: seq<Event>, id: Id)
    ensures forall j :: OpenSince(es, id, j) ==> 0 <= j < |es|
  {
  }

  lemma FirstIsOpen(es: seq<Event>, id: Id)
    ensures forall j :: FirstOpen(es, id, j) ==> OpenSince(es, id, j)
  {
    hide OpenSince;
  }

  lemma FirstOpenEarlier(es: seq<Event>, e: Event, id: Id, j: int)
    requires FirstOpen(es + [e], id, j) && j < |es|
    ensures FirstOpen(es, id, j)
  {
    hide OpenSince;
    InHistory(es, id);
    forall i
      ensures OpenSince(es + [e], id, i)
         <==> (if i == |es| then Opens(e, id) && Up(es) else OpenSince(es, id, i) && !Closes(e, id))
    {
      OpenLater(es, e, id, i);
    }
    hide Up, Opens, Closes;
  }

  lemma NotOpenBefore(es: seq<Event>, e: Event, id: Id)
    requires FirstOpen(es + [e], id, |es|)
    ensures !(exists j :: OpenSince(es, id, j))
  {
    hide OpenSince;
    InHistory(es, id);
    OpenLater(es, e, id, |es|);
    if j :| OpenSince(es, id, j) { StaysOpen(es, e, id, j); }
  }

  lemma StaysOpen(es: seq<Event>, e: Event, id: Id, j: int)
    requires OpenSince(es, id, j) && Opens(e, id)
    ensures OpenSince(es + [e], id, j)
  {
    hide OpenSince;
    InHistory(es, id);
    OpenLater(es, e, id, j);
  }

  /** In every run: a peer has a request socket exactly when it joined or greeted while the service was up and neither left
      nor was the service stopped since, and the socket is connected to the address given first since then. */
  lemma {:induction false} SocketsFollowCalls(self: Self, es: seq<Event>, id: Id)
    ensures SocketFits(es, Run(Initial(self), es).sockets, id)
  {
    hide Step, Up, OpenSince, FirstOpen, AddressIn;
    if es == [] {
      InHistory(es, id);
      assert forall j :: FirstOpen(es, id, j) ==> OpenSince(es, id, j) by { FirstIsOpen(es, id); }
    } else {
      var n := |es| - 1;
      SocketsFollowCalls(self, es[..n], id);
      AliveExactlyWhenUp(self, es[..n]);
      SocketLater(es[..n], Run(Initial(self), es[..n]), es[n], id);
      assert es[..n] + [es[n]] == es;
      hide SocketFits;
    }
  }

  // ---- Waiting requests ----

  /** The call ends the waiting of a request. */
  predicate Ends(e: Event, ext: ExtId) {
    e.Disable? || (e.Answer? && e.ext == ext)
  }

  /** The request arrived there and, while the service was up, was neither answered nor dropped since. */
  ghost predicate WaitsSince(es: seq<Event>, ext: ExtId, j: int) {
    0 <= j < |es| && Requests(es[j], ext) && Up(es[..j]) && forall k :: j < k < |es| && Up(es[..k]) ==> !Ends(es[k], ext)
  }

  lemma WaitsLater(es: seq<Event>, e: Event, ext: ExtId, j: int)
    ensures WaitsSince(es + [e], ext, j)
       <==> (if j == |es| then Requests(e, ext) && Up(es) else WaitsSince(es, ext, j) && !(Up(es) && Ends(e, ext)))
  {
    hide Up, Requests, Ends;
    var all, n := es + [e], |es|;
    assert forall k :: 0 <= k < n ==> all[k] == es[k];
    assert all[n] == e && all[..n] == es;
    assert forall k :: 0 <= k <= n ==> all[..k] == es[..k];
  }

  lemma WaitingStep(s: State, e: Event, ext: ExtId)
    ensures ext in Step(s, e).replies
       <==> (ext in s.replies && !(s.alive && Ends(e, ext))) || (s.alive && Requests(e, ext))
  {
    hide IdFrom, IdBytes, Settle;
    match e {
      case Send(_, _) => SettleFrame(s, s.nextId, Abandoned);
      case Cancel(reqId) => SettleFrame(s, reqId, Abandoned);
      case Arrive(f) => if f.Reply? { SettleFrame(s, f.reqId, Value(f.msg)); }
      case _ =>
    }
  }

  lemma WaitsExistsLater(es: seq<Event>, e: Event, ext: ExtId)
    ensures (exists j :: WaitsSince(es + [e], ext, j))
       <==> (Up(es) && Requests(e, ext)) || ((exists j :: WaitsSince(es, ext, j)) && !(Up(es) && Ends(e, ext)))
  {
    forall j
      ensures WaitsSince(es + [e], ext, j)
         <==> (if j == |es| then Requests(e, ext) && Up(es) else WaitsSince(es, ext, j) && !(Up(es) && Ends(e, ext)))
      ensures WaitsSince(es, ext, j) ==> j < |es|
    {
      WaitsLater(es, e, ext, j);
    }
    hide WaitsSince, Up, Requests, Ends;
    if Up(es) && Requests(e, ext) { assert WaitsSince(es + [e], ext, |es|); }
    if j :| WaitsSince(es, ext, j) { assert !(Up(es) && Ends(e, ext)) ==> WaitsSince(es + [e], ext, j); }
  }

  /** In every run: a request waits for a reply exactly when it arrived while the service was up and, while it was up, has
      neither been answered since nor dropped by a disable. A stop leaves it waiting. */
  lemma {:induction false} RequestsWaitExactly(self: Self, es: seq<Event>, ext: ExtId)
    ensures ext in Run(Initial(self), es).replies <==> exists j :: WaitsSince(es, ext, j)
  {
    hide Step, WaitsSince, Up, Requests, Ends;
    if es == [] {
      assert !(exists j :: WaitsSince(es, ext, j)) by { NothingWaits(ext); }
    } else {
      var n := |es| - 1;
      RequestsWaitExactly(self, es[..n], ext);
      AliveExactlyWhenUp(self, es[..n]);
      WaitingStep(Run(Initial(self), es[..n]), es[n], ext);
      WaitsExistsLater(es[..n], es[n], ext);
      assert es[..n] + [es[n]] == es;
    }
  }

  lemma NothingWaits(ext: ExtId)
    ensures forall j :: !WaitsSince([], ext, j)
  {
  }
}
