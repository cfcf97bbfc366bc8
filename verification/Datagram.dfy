/** Announcements in datagrams: what a receiver with a buffer of fixed size makes of an instance's broadcast. The result of
    the parse is not looked at, so a datagram that is cut short counts with the fields before the cut. */
module Datagram {
  import opened Types
  import opened Wire
  import D = Detector

  /** The size of the receive buffer. */
  const BUFFER_SIZE := 2048

  /** The largest payload of a UDP datagram over IPv4; a longer one is not sent. */
  const MAX_DATAGRAM := 65507

  /** What of the bytes reaches the parser. */
  function Buffered(bytes: seq<Byte>): seq<Byte> {
    if |bytes| <= BUFFER_SIZE then bytes else bytes[..BUFFER_SIZE]
  }

  /** What a receiver reads of a datagram with these bytes, if they can be sent. */
  function Transport(bytes: seq<Byte>): Option<Broadcast> {
    if |bytes| <= MAX_DATAGRAM then Some(Received(Buffered(bytes))) else None
  }

  /** What a receiver makes of it. */
  function Heard(c: D.Config, d: D.Detector, bytes: seq<Byte>): D.Detector {
    match Transport(bytes)
    case None => d
    case Some(r) => D.Reception(c, d, r)
  }

  // ---- A serialization cut short ----

  /** A varint that is cut short cannot be read. */
  lemma {:induction false} CutVarint(n: nat, j: nat, left: nat)
    requires j < |EncodeVarint(n)|
    ensures ReadVarint(EncodeVarint(n)[..j], left).Fail?
    decreases n
  {
    if j > 0 && left > 0 && n >= 128 {
      CutVarint(n / 128, j - 1, left - 1);
      assert EncodeVarint(n)[..j][1..] == EncodeVarint(n / 128)[..j - 1];
    }
  }

  /** Of a record that is cut short there is no length, or its length and less than its bytes. */
  lemma CutRecord(b: seq<Byte>, j: nat)
    requires |b| <= MAX_LENGTH && j < |EncodeRecord(b)|
    ensures ReadRecord(EncodeRecord(b)[..j]).Fail?
    ensures var limited := ReadLimited(EncodeRecord(b)[..j]); limited.Got? ==> limited.rest == []
  {
    hide ReadVarint, EncodeVarint;
    var v := EncodeVarint(|b|);
    if j < |v| {
      CutVarint(|b|, j, MAX_VARINT_BYTES);
      assert EncodeRecord(b)[..j] == v[..j];
    } else {
      Varint64RoundTrip(|b|, b[..j - |v|]);
      assert EncodeRecord(b)[..j] == v + b[..j - |v|];
    }
  }

  /** At most the string or the nested message of this field differs. */
  predicate OnlyField(m: Broadcast, r: Broadcast, k: int) {
    if k == 3 then r == m.(senderId := r.senderId)
    else if k == 4 then r == m.(senderName := r.senderName)
    else if k == 8 then r == m.(additionalStateInfos := r.additionalStateInfos)
    else r == m
  }

  lemma ParseNothing(m: Broadcast)
    ensures Parse(m, []) == Done(m, true)
  {
  }

  /** A payload that is cut short touches its own field only, and nothing is read after it. */
  lemma CutPayload(m: Broadcast, b: Broadcast, k: int, j: nat)
    requires 1 <= k <= LAST_FIELD && Has(b, k) && Encodable(b) && j < |Payload(b, k)|
    ensures OnlyField(m, ParseValue(m, k, Payload(b, k)[..j]).msg, k)
  {
    hide ReadVarint, EncodeVarint, ParseSender, Parse, SerializeSender;
    match k {
      case 1 => CutVarint(b.zmqPubPort.value, j, MAX_VARINT_BYTES);
      case 2 => CutVarint(b.zmqRepPort.value, j, MAX_VARINT_BYTES);
      case 3 =>
        SenderByteSizeIsLength(b.senderId.value);
        CutRecord(SerializeSender(b.senderId.value), j);
        hide ReadLimited, EncodeRecord;
        var r := ReadField(m, 3, Payload(b, k)[..j]);
        ParseNothing(r.msg);
      case 4 => CutRecord(b.senderName.value, j);
      case 5 => CutVarint(b.version.value, j, MAX_VARINT_BYTES);
      case 6 => CutVarint(b.lifecycleState.value, j, MAX_VARINT_BYTES);
      case 7 => CutVarint(b.additionalLifecycleInfos.value, j, MAX_VARINT_BYTES);
      case 8 => CutRecord(b.additionalStateInfos.value, j);
      case _ => CutVarint(b.multicastIdentifier.value, j, MAX_VARINT_BYTES);
    }
  }

  lemma CutField(m: Broadcast, b: Broadcast, k: int, j: nat)
    requires 1 <= k <= LAST_FIELD && Encodable(b) && j < |FieldBytes(b, k)|
    ensures OnlyField(m, Parse(m, FieldBytes(b, k)[..j]).msg, k)
  {
    hide Parse, Payload;
    if j == 0 {
      ParseNothing(m);
    } else {
      var value := Payload(b, k)[..j - 1];
      assert FieldBytes(b, k)[..j] == [TagOf(k)] + value;
      ReadTagByte(TagOf(k), value);
      ParseHead(m, [TagOf(k)] + value);
      CutPayload(m, b, k, j - 1);
    }
  }

  /** The fields up to the lifecycle state. */
  predicate SameHead(a: Broadcast, b: Broadcast) {
    && a.zmqPubPort == b.zmqPubPort && a.zmqRepPort == b.zmqRepPort && a.senderId == b.senderId
    && a.senderName == b.senderName && a.version == b.version && a.lifecycleState == b.lifecycleState
  }

  /** What of the fields from k on comes before field 7. */
  function HeadFrom(b: Broadcast, k: int): nat
    requires 1 <= k <= LAST_FIELD + 1 && Encodable(b)
    decreases LAST_FIELD - k
  {
    if k >= 7 then 0 else FieldSize(b, k) + HeadFrom(b, k + 1)
  }

  /** What of the fields from k on comes before field 4, so that the sender is complete. */
  function SenderFrom(b: Broadcast, k: int): (n: nat)
    requires 1 <= k <= LAST_FIELD + 1 && Encodable(b)
    ensures n <= 33 + 11 * if k < 3 then 3 - k else 0
    decreases LAST_FIELD - k
  {
    if k >= 4 then 0 else FieldSize(b, k) + SenderFrom(b, k + 1)
  }

  lemma {:induction false} LateMergeKeepsSender(m: Broadcast, b: Broadcast, k: int)
    requires 4 <= k <= LAST_FIELD + 1
    ensures MergeFrom(m, b, k).senderId == m.senderId
    decreases LAST_FIELD - k
  {
    if k <= LAST_FIELD { LateMergeKeepsSender(MergeField(m, b, k), b, k + 1); }
  }

  lemma MergeSteps(m: Broadcast, b: Broadcast, k: int)
    requires 1 <= k <= LAST_FIELD
    ensures MergeFrom(m, b, k) == MergeFrom(MergeField(m, b, k), b, k + 1)
    ensures k != 9 ==> MergeField(m, b, k).multicastIdentifier == m.multicastIdentifier
    ensures k != 6 ==> MergeField(m, b, k).lifecycleState == m.lifecycleState
  {
  }

  lemma LateMergeKeepsHead(m: Broadcast, b: Broadcast, k: int)
    requires 7 <= k <= LAST_FIELD + 1
    ensures SameHead(m, MergeFrom(m, b, k))
  {
    assert MergeFrom(m, b, 10) == m;
    var m7 := MergeField(m, b, 7);
    var m8 := MergeField(m7, b, 8);
    assert k == 7 ==> MergeFrom(m, b, k) == MergeField(m8, b, 9);
    assert k == 8 ==> MergeFrom(m, b, k) == MergeField(MergeField(m, b, 8), b, 9);
  }

  /** Fields cut short at n bytes: the multicast identifier, which comes last, is not read; if the fields before 7 are
      complete they are all read, otherwise at least the lifecycle state is not; the sender is read if it is complete. */
  lemma {:induction false} CutMessage(m: Broadcast, b: Broadcast, k: int, n: nat)
    requires 1 <= k <= LAST_FIELD + 1 && Encodable(b) && n < |SerializeFrom(b, k)|
    ensures var r := Parse(m, SerializeFrom(b, k)[..n]).msg;
            && r.multicastIdentifier == m.multicastIdentifier
            && (n >= HeadFrom(b, k) ==> SameHead(r, MergeFrom(m, b, k)))
            && (n < HeadFrom(b, k) ==> r.lifecycleState == m.lifecycleState)
            && (n >= SenderFrom(b, k) ==> r.senderId == MergeFrom(m, b, k).senderId)
    decreases LAST_FIELD - k
  {
    hide Parse, FieldBytes, FieldSize, SerializeFrom, MergeFrom, MergeField;
    SerializeUnfold(b);
    assert k <= LAST_FIELD && SerializeFrom(b, k) == FieldBytes(b, k) + SerializeFrom(b, k + 1);
    var size := |FieldBytes(b, k)|;
    FieldSizeIsLength(b, k);
    MergeSteps(m, b, k);
    if n < size {
      CutField(m, b, k, n);
      assert SerializeFrom(b, k)[..n] == FieldBytes(b, k)[..n];
      if k >= 7 { LateMergeKeepsHead(m, b, k); }
      if k >= 4 { LateMergeKeepsSender(m, b, k); }
    } else {
      var tail := SerializeFrom(b, k + 1)[..n - size];
      assert SerializeFrom(b, k)[..n] == FieldBytes(b, k) + tail;
      ParseField(m, b, k, tail);
      CutMessage(MergeField(m, b, k), b, k + 1, n - size);
    }
  }

  lemma ReadsWhole(b: Broadcast)
    requires Encodable(b)
    ensures Received(Serialize(b)) == b
  {
    RoundTrip(b);
    hide Serialize, Parse;
  }

  /** What is read of a serialization cut at the size of the buffer. */
  lemma ReadsCut(b: Broadcast)
    requires Encodable(b) && |Serialize(b)| > 2048
    ensures var r := Received(Serialize(b)[..2048]);
            && r.multicastIdentifier.None? && r.senderId == b.senderId
            && (HeadFrom(b, 1) <= 2048 ==> SameHead(r, b))
            && (HeadFrom(b, 1) > 2048 ==> r.lifecycleState.None?)
  {
    SerializeUnfold(b);
    MergeByField(EMPTY_BROADCAST, b);
    hide SerializeFrom, Parse, HeadFrom, SenderFrom, MergeFrom;
    CutMessage(EMPTY_BROADCAST, b, 1, 2048);
  }

  /** What arrives of a serialized message: nothing of one that is too long for a datagram, all of one that fits the buffer,
      and of one in between its head and no multicast identifier or, when not even the head fits, its sender and no
      lifecycle state. */
  lemma WhatArrives(b: Broadcast)
    requires Encodable(b)
    ensures |Serialize(b)| > 65507 ==> Transport(Serialize(b)) == None
    ensures |Serialize(b)| <= 2048 ==> Transport(Serialize(b)) == Some(b)
    ensures 2048 < |Serialize(b)| <= 65507 ==>
              && Transport(Serialize(b)).Some?
              && var r := Transport(Serialize(b)).value;
                 && r.multicastIdentifier.None? && r.senderId == b.senderId
                 && (HeadFrom(b, 1) <= 2048 ==> SameHead(r, b))
                 && (HeadFrom(b, 1) > 2048 ==> r.lifecycleState.None?)
  {
    hide Serialize, Received, HeadFrom, SameHead, Encodable;
    ReadsWhole(b);
    if |Serialize(b)| > 2048 { ReadsCut(b); }
  }

  // ---- Announcements ----

  function CodeOf(state: ModuleState): U32 {
    match state
    case Dead => 0
    case Inactive => 1
    case Active => 2
    case Other(code) => code
  }

  /** What an instance says about itself besides its identity. */
  datatype About = About(pubPort: U32, repPort: U32, name: seq<Byte>, version: U16, extra: seq<Byte>)

  /** The broadcast an instance sends about itself. */
  function Announcement(c: D.Config, state: ModuleState, about: About): Broadcast {
    Broadcast(Some(about.pubPort), Some(about.repPort), Some(SenderId(Some(c.self.typeId), Some(c.self.instanceId))),
              Some(about.name), Some(about.version), Some(CodeOf(state)), None, Some(about.extra),
              Some(c.multicastIdentifier))
  }

  /** The state is one the enumeration names, or a code beyond them; the texts fit a record. */
  predicate Sendable(state: ModuleState, about: About) {
    (state.Other? ==> state.code > 2) && |about.name| <= MAX_LENGTH && |about.extra| <= MAX_LENGTH
  }

  /** How much of an announcement arrives. */
  datatype Arrival = Whole | HeadOnly | Headless | Nothing

  function ArrivalOf(a: Broadcast): Arrival
    requires Encodable(a)
  {
    if |Serialize(a)| > MAX_DATAGRAM then Nothing
    else if |Serialize(a)| <= BUFFER_SIZE then Whole
    else if HeadFrom(a, 1) <= BUFFER_SIZE then HeadOnly
    else Headless
  }

  /** A receiver that insists on all required fields accepts every announcement. */
  lemma AnnouncementIsAccepted(c: D.Config, state: ModuleState, about: About)
    requires Sendable(state, about)
    ensures Accepted(Serialize(Announcement(c, state, about))) == Some(Announcement(c, state, about))
  {
    AcceptedExactlyWhenInitialized(Announcement(c, state, about));
    hide Accepted, Serialize;
  }

  /** What was read is the announcement, as far as it arrived: all of it; its sender, state, version and ports without
      multicast identifier; or its sender, as if it were Dead. */
  predicate ReadsAs(r: Broadcast, sender: D.Config, state: ModuleState, about: About, arrival: Arrival) {
    && D.SenderOf(r) == sender.self
    && match arrival
       case Whole => r == Announcement(sender, state, about) && D.StateIn(r) == state
                     && D.IdentifierIn(r) == sender.multicastIdentifier && D.ExtraIn(r) == about.extra
       case HeadOnly => D.StateIn(r) == state && D.IdentifierIn(r) == 0 && D.VersionIn(r) == about.version
                        && D.PortIn(r.zmqPubPort) == about.pubPort && D.PortIn(r.zmqRepPort) == about.repPort
       case Headless => D.StateIn(r) == Dead && D.IdentifierIn(r) == 0
       case Nothing => false
  }

  /** What any receiver, the sender included, reads of an announcement of any size. */
  lemma AnnouncementArrives(sender: D.Config, state: ModuleState, about: About)
    requires Sendable(state, about)
    ensures var a := Announcement(sender, state, about);
            match Transport(Serialize(a))
            case None => ArrivalOf(a) == Nothing
            case Some(r) => ArrivalOf(a) != Nothing && ReadsAs(r, sender, state, about, ArrivalOf(a))
  {
    var a := Announcement(sender, state, about);
    AnnouncementReads(sender, state, about);
    WhatArrives(a);
    hide Serialize, Received, HeadFrom, Buffered, Announcement;
    hide D.SenderOf, D.StateIn, D.IdentifierIn, D.VersionIn, D.PortIn, D.ExtraIn, SameHead;
    if ArrivalOf(a) != Nothing {
      var r := Transport(Serialize(a)).value;
      MissingReads(r);
      if ArrivalOf(a) == HeadOnly { HeadReads(r, a); }
      if ArrivalOf(a) != Whole { SenderReads(r, a); }
    }
  }

  lemma AnnouncementReads(sender: D.Config, state: ModuleState, about: About)
    requires Sendable(state, about)
    ensures var a := Announcement(sender, state, about);
            && D.SenderOf(a) == sender.self && D.StateIn(a) == state
            && D.IdentifierIn(a) == sender.multicastIdentifier && D.ExtraIn(a) == about.extra
            && D.VersionIn(a) == about.version
            && D.PortIn(a.zmqPubPort) == about.pubPort && D.PortIn(a.zmqRepPort) == about.repPort
  {
  }

  lemma HeadReads(r: Broadcast, a: Broadcast)
    requires SameHead(r, a)
    ensures D.SenderOf(r) == D.SenderOf(a) && D.StateIn(r) == D.StateIn(a) && D.VersionIn(r) == D.VersionIn(a)
    ensures D.PortIn(r.zmqPubPort) == D.PortIn(a.zmqPubPort) && D.PortIn(r.zmqRepPort) == D.PortIn(a.zmqRepPort)
  {
  }

  lemma SenderReads(r: Broadcast, a: Broadcast)
    requires r.senderId == a.senderId
    ensures D.SenderOf(r) == D.SenderOf(a)
  {
  }

  lemma MissingReads(r: Broadcast)
    ensures r.multicastIdentifier.None? ==> D.IdentifierIn(r) == 0
    ensures r.lifecycleState.None? ==> D.StateIn(r) == Dead
  {
  }

  /** The receiver takes the announcement as its own, or leaves out its own type. */
  predicate TakenAsOwn(sender: D.Config, receiver: D.Config, arrival: Arrival) {
    || (sender.self == receiver.self
        && receiver.multicastIdentifier == if arrival == Whole then sender.multicastIdentifier else 0)
    || (receiver.ignoreSameType && sender.self.typeId == receiver.self.typeId)
  }

  /** The effect of any announcement on any receiver: none if it cannot be sent or is taken as own; otherwise the sender is
      heard with its state if at least the head arrives and the state is not Dead, and is dropped, if it is registered, in
      any other case. */
  lemma AnnouncementTakesEffect(sender: D.Config, receiver: D.Config, d: D.Detector, state: ModuleState, about: About)
    requires Sendable(state, about)
    ensures var a := Announcement(sender, state, about);
            var d' := Heard(receiver, d, Serialize(a));
            if ArrivalOf(a) == Nothing || TakenAsOwn(sender, receiver, ArrivalOf(a)) then d' == d
            else if state != Dead && ArrivalOf(a) != Headless then d' == D.Heard(d, sender.self, state)
            else d' == if sender.self in d.peers then D.Drop(d, sender.self) else d
  {
    hide Serialize, Transport, HeadFrom, Announcement, D.SenderOf, D.StateIn, D.IdentifierIn, D.ExtraIn;
    hide D.VersionIn, D.PortIn;
    AnnouncementArrives(sender, state, about);
  }

  /** An instance that hears its own announcement. It changes nothing if it arrives whole. Otherwise the instance comes to
      be registered as its own peer exactly when the announcement can be sent, its head fits, its state is not Dead, the
      multicast identifier is not zero, and the own type is not left out. */
  lemma OwnAnnouncement(c: D.Config, d: D.Detector, state: ModuleState, about: About)
    requires Sendable(state, about) && c.self !in d.peers
    ensures var a := Announcement(c, state, about);
            var d' := Heard(c, d, Serialize(a));
            && (|Serialize(a)| <= 2048 ==> d' == d)
            && (c.self in d'.peers
                <==> 2048 < |Serialize(a)| <= 65507 && HeadFrom(a, 1) <= 2048 && state != Dead
                     && c.multicastIdentifier != 0 && !c.ignoreSameType)
  {
    hide Serialize, Transport, HeadFrom, Announcement, D.SenderOf, D.StateIn, D.IdentifierIn, D.ExtraIn;
    hide D.VersionIn, D.PortIn;
    AnnouncementArrives(c, state, about);
  }
}
