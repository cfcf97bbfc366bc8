/** The wire format of SenderId and StateBroadcast as functions on byte sequences: the reference for module Proto.
    Varints, length-delimited records and skipping follow the Protocol Buffers Encoding specification. */
module Wire {
  import opened Types

  datatype Read<+T> = Fail | Got(value: T, rest: seq<Byte>)

  // ---- Base 128 varints ----

  /** The longest varint a reader accepts. */
  const MAX_VARINT_BYTES := 10

  function EncodeVarint(n: nat): (bs: seq<Byte>)
    ensures |bs| >= 1
  {
    if n < 128 then [n] else [n % 128 + 128] + EncodeVarint(n / 128)
  }

  function ReadVarint(s: seq<Byte>, left: nat): (r: Read<nat>)
    ensures r.Got? ==> |r.rest| < |s|
    decreases |s|
  {
    if s == [] || left == 0 then Fail
    else if s[0] < 128 then Got(s[0], s[1..])
    else match ReadVarint(s[1..], left - 1)
      case Fail => Fail
      case Got(v, rest) => Got(s[0] - 128 + 128 * v, rest)
  }

  function Pow128(e: nat): nat {
    if e == 0 then 1 else 128 * Pow128(e - 1)
  }

  lemma {:induction false} VarintRoundTrip(n: nat, rest: seq<Byte>, left: nat)
    requires left >= 1 && n < Pow128(left)
    ensures ReadVarint(EncodeVarint(n) + rest, left) == Got(n, rest)
    decreases left
  {
    var s := EncodeVarint(n) + rest;
    if n < 128 {
      assert s[1..] == rest;
    } else {
      assert s[1..] == EncodeVarint(n / 128) + rest;
      VarintRoundTrip(n / 128, rest, left - 1);
    }
  }

  /** The number that groups of seven bits stand for, the low ones first. */
  function Groups(bs: seq<Byte>): nat {
    if bs == [] then 0 else bs[0] % 128 + 128 * Groups(bs[1..])
  }

  /** A number is written as its groups, each byte but the last with its high bit set. */
  lemma {:induction false} VarintForm(n: nat)
    ensures var bs := EncodeVarint(n);
            Groups(bs) == n && bs[|bs| - 1] < 128 && forall i :: 0 <= i < |bs| - 1 ==> bs[i] >= 128
  {
    hide Groups;
    if n < 128 {
      OneGroup(n);
    } else {
      VarintForm(n / 128);
      GroupInFront(n, EncodeVarint(n / 128));
    }
  }

  lemma OneGroup(n: nat)
    requires n < 128
    ensures Groups([n]) == n
  {
    assert [n][1..] == [] && Groups([]) == 0;
  }

  lemma GroupInFront(n: nat, rest: seq<Byte>)
    requires Groups(rest) == n / 128
    ensures Groups([n % 128 + 128] + rest) == n
  {
    assert ([n % 128 + 128] + rest)[1..] == rest;
  }

  /** Groups are read up to the first byte without the high bit, be they more than the number needs. */
  lemma {:induction false} VarintReads(s: seq<Byte>, k: nat, left: nat)
    requires k < |s| && k < left && s[k] < 128 && forall i :: 0 <= i < k ==> s[i] >= 128
    ensures ReadVarint(s, left) == Got(Groups(s[..k + 1]), s[k + 1..])
  {
    if k == 0 {
      assert s[..1] == [s[0]] && [s[0]][1..] == [] && Groups([]) == 0;
    } else {
      VarintReads(s[1..], k - 1, left - 1);
      assert s[..k + 1][1..] == s[1..][..k];
    }
  }

  lemma Varint64RoundTrip(n: U64, rest: seq<Byte>)
    ensures ReadVarint(EncodeVarint(n) + rest, MAX_VARINT_BYTES) == Got(n, rest)
  {
    assert Pow128(10) == 128 * 128 * 128 * 128 * 128 * 128 * 128 * 128 * 128 * 128 by {
      assert Pow128(4) == 128 * 128 * 128 * 128;
      assert Pow128(7) == 128 * 128 * 128 * 128 * 128 * 128 * 128;
    }
    VarintRoundTrip(n, rest, MAX_VARINT_BYTES);
  }

  /** Number of bytes of a varint, by comparing with the powers of 128. */
  function VarintSize(n: U64): (k: nat)
    ensures 1 <= k <= 10
  {
    if n < 0x80 then 1
    else if n < 0x4000 then 2
    else if n < 0x20_0000 then 3
    else if n < 0x1000_0000 then 4
    else if n < 0x8_0000_0000 then 5
    else if n < 0x400_0000_0000 then 6
    else if n < 0x2_0000_0000_0000 then 7
    else if n < 0x100_0000_0000_0000 then 8
    else if n < 0x8000_0000_0000_0000 then 9
    else 10
  }

  lemma {:induction false} VarintSizeIsLength(n: U64)
    ensures VarintSize(n) == |EncodeVarint(n)|
    decreases n
  {
    if n >= 128 {
      VarintSizeIsLength(n / 128);
    }
  }

  // ---- Length-delimited records ----

  /** Longest string, bytes field or nested message: sizes are C++ int. */
  const MAX_LENGTH := 0x7fff_ffff

  function EncodeRecord(b: seq<Byte>): (bs: seq<Byte>) {
    EncodeVarint(|b|) + b
  }

  function ReadRecord(s: seq<Byte>): (r: Read<seq<Byte>>)
    ensures r.Got? ==> |r.rest| + |r.value| < |s|
  {
    match ReadVarint(s, MAX_VARINT_BYTES)
    case Fail => Fail
    case Got(n, rest) =>
      var len := n % TWO32;
      if len <= |rest| then Got(rest[..len], rest[len..]) else Fail
  }

  lemma RecordRoundTrip(b: seq<Byte>, rest: seq<Byte>)
    requires |b| <= 0x7fff_ffff
    ensures ReadRecord(EncodeRecord(b) + rest) == Got(b, rest)
  {
    Varint64RoundTrip(|b|, b + rest);
    assert EncodeRecord(b) + rest == EncodeVarint(|b|) + (b + rest);
  }

  /** A nested message: its bytes end at its length or where its surroundings end, whichever comes first. */
  function ReadLimited(s: seq<Byte>): (r: Read<seq<Byte>>)
    ensures r.Got? ==> |r.rest| + |r.value| < |s|
  {
    match ReadVarint(s, MAX_VARINT_BYTES)
    case Fail => Fail
    case Got(n, rest) =>
      var len := if n % TWO32 <= |rest| then n % TWO32 else |rest|;
      Got(rest[..len], rest[len..])
  }

  lemma RecordIsLimited(s: seq<Byte>)
    ensures ReadRecord(s).Got? ==> ReadLimited(s) == ReadRecord(s)
  {
  }

  /** What a string field that held old holds after reading a record into it, be that a success or not: nothing new when
      there is no length or one beyond the range of int, and as much as there is when the record is cut short. */
  function StringAfter(before: seq<Byte>, s: seq<Byte>): seq<Byte> {
    match ReadVarint(s, MAX_VARINT_BYTES)
    case Fail => before
    case Got(n, rest) =>
      var len := n % TWO32;
      if len <= |rest| then rest[..len] else if len > MAX_LENGTH then before else rest
  }

  // ---- Tags and skipping ----

  datatype TagRead = AtEnd | BadTag | Tag(tag: U32, rest: seq<Byte>)

  /** A clean end, an unreadable tag, or a tag. */
  function ReadTag(s: seq<Byte>): (r: TagRead)
    ensures r.Tag? ==> |r.rest| < |s|
    ensures r.AtEnd? <==> s == []
  {
    if s == [] then AtEnd
    else match ReadVarint(s, MAX_VARINT_BYTES)
      case Fail => BadTag
      case Got(v, rest) => Tag(v % TWO32, rest)
  }

  function SkipBytes(s: seq<Byte>, n: nat): Read<()> {
    if n <= |s| then Got((), s[n..]) else Fail
  }

  function SkipField(tag: U32, s: seq<Byte>): (r: Read<()>)
    ensures r.Got? ==> |r.rest| <= |s|
    decreases |s|, 1
  {
    match tag % 8
    case 0 => (match ReadVarint(s, MAX_VARINT_BYTES)
      case Fail => Fail
      case Got(_, rest) => Got((), rest))
    case 1 => SkipBytes(s, 8)
    case 2 => (match ReadRecord(s)
      case Fail => Fail
      case Got(_, rest) => Got((), rest))
    case 3 => SkipGroup(tag / 8, s)
    case 5 => SkipBytes(s, 4)
    case _ => Fail
  }

  /** Skips to the end tag of the group with this field number. */
  function SkipGroup(number: nat, s: seq<Byte>): (r: Read<()>)
    ensures r.Got? ==> |r.rest| <= |s|
    decreases |s|, 0
  {
    match ReadTag(s)
    case AtEnd => Fail
    case BadTag => Fail
    case Tag(t, rest) =>
      if t == 0 then Fail
      else if t % 8 == 4 then (if t / 8 == number then Got((), rest) else Fail)
      else match SkipField(t, rest)
        case Fail => Fail
        case Got(_, rest') => SkipGroup(number, rest')
  }

  // ---- The messages: an absent value is a has-bit that is not set ----

  datatype SenderId = SenderId(typeId: Option<U32>, instanceId: Option<U64>)

  datatype Broadcast = Broadcast(
    zmqPubPort: Option<U32>,
    zmqRepPort: Option<U32>,
    senderId: Option<SenderId>,
    senderName: Option<seq<Byte>>,
    version: Option<U32>,
    lifecycleState: Option<U32>,
    additionalLifecycleInfos: Option<U32>,
    additionalStateInfos: Option<seq<Byte>>,
    multicastIdentifier: Option<U32>)

  const EMPTY_SENDER := SenderId(None, None)
  const EMPTY_BROADCAST := Broadcast(None, None, None, None, None, None, None, None, None)

  /** What a parse leaves in the message: it failed there, or it stopped, at the end of its input or before. */
  datatype Parsed<+M> = Failed(msg: M) | Done(msg: M, atEnd: bool)

  /** What reading the value of a field leaves in the message. */
  datatype FieldRead<+M> = Broken(msg: M) | Taken(msg: M, rest: seq<Byte>)

  function NumberField(tag: Byte, v: U64): seq<Byte> {
    [tag] + EncodeVarint(v)
  }

  function ReadU32(s: seq<Byte>): (r: Read<U32>)
    ensures r.Got? ==> |r.rest| < |s|
  {
    match ReadVarint(s, MAX_VARINT_BYTES)
    case Fail => Fail
    case Got(v, rest) => Got(v % TWO32, rest)
  }

  function ReadU64(s: seq<Byte>): (r: Read<U64>)
    ensures r.Got? ==> |r.rest| < |s|
  {
    match ReadVarint(s, MAX_VARINT_BYTES)
    case Fail => Fail
    case Got(v, rest) => Got(v % TWO64, rest)
  }

  // ---- SenderId ----

  function TypeIdField(m: SenderId): seq<Byte> {
    if m.typeId.Some? then NumberField(8, m.typeId.value) else []
  }

  function InstanceIdField(m: SenderId): seq<Byte> {
    if m.instanceId.Some? then NumberField(16, m.instanceId.value) else []
  }

  function SerializeSender(m: SenderId): seq<Byte> {
    TypeIdField(m) + InstanceIdField(m)
  }

  function Later<T>(a: Option<T>, b: Option<T>): Option<T> {
    if b.Some? then b else a
  }

  function MergeSender(a: SenderId, b: SenderId): SenderId {
    SenderId(Later(a.typeId, b.typeId), Later(a.instanceId, b.instanceId))
  }

  function ReadSenderField(m: SenderId, k: int, s: seq<Byte>): (r: FieldRead<SenderId>)
    requires 1 <= k <= 2
    ensures r.Taken? ==> |r.rest| < |s|
  {
    if k == 1 then
      match ReadU32(s)
      case Fail => Broken(m)
      case Got(v, rest) => Taken(m.(typeId := Some(v)), rest)
    else
      match ReadU64(s)
      case Fail => Broken(m)
      case Got(v, rest) => Taken(m.(instanceId := Some(v)), rest)
  }

  function SenderFieldOf(tag: U32): int {
    if tag == 8 then 1 else if tag == 16 then 2 else 0
  }

  /** The plain tag loop: no fast path. */
  function ParseSender(m: SenderId, s: seq<Byte>): Parsed<SenderId>
    decreases |s|
  {
    match ReadTag(s)
    case AtEnd => Done(m, true)
    case BadTag => Done(m, false)
    case Tag(t, rest) =>
      var k := SenderFieldOf(t);
      if k != 0 then
        match ReadSenderField(m, k, rest)
        case Broken(m') => Failed(m')
        case Taken(m', rest') => ParseSender(m', rest')
      else if t == 0 || t % 8 == 4 then Done(m, false)
      else match SkipField(t, rest)
        case Fail => Failed(m)
        case Got(_, rest') => ParseSender(m, rest')
  }

  /** The tag of field k has been read: its value comes next. */
  function ParseSenderValue(m: SenderId, k: int, s: seq<Byte>): Parsed<SenderId>
    requires 1 <= k <= 2
  {
    match ReadSenderField(m, k, s)
    case Broken(m') => Failed(m')
    case Taken(m', rest) => ParseSender(m', rest)
  }

  /** What the head of the tag loop does. */
  lemma ParseSenderHead(m: SenderId, s: seq<Byte>)
    ensures ReadTag(s).AtEnd? ==> ParseSender(m, s) == Done(m, true)
    ensures ReadTag(s).BadTag? ==> ParseSender(m, s) == Done(m, false)
    ensures ReadTag(s).Tag? ==>
              var t, rest := ReadTag(s).tag, ReadTag(s).rest;
              if t == 8 then ParseSender(m, s) == ParseSenderValue(m, 1, rest)
              else if t == 16 then ParseSender(m, s) == ParseSenderValue(m, 2, rest)
              else if t == 0 || t % 8 == 4 then ParseSender(m, s) == Done(m, false)
              else if SkipField(t, rest).Fail? then ParseSender(m, s) == Failed(m)
              else ParseSender(m, s) == ParseSender(m, SkipField(t, rest).rest)
  {
  }

  /** A one-byte tag is read as itself. */
  lemma ReadTagByte(tag: Byte, s: seq<Byte>)
    requires tag < 128
    ensures ReadTag([tag] + s) == Tag(tag, s)
  {
    assert ([tag] + s)[1..] == s;
  }

  lemma ReadNumber(v: U64, rest: seq<Byte>)
    ensures ReadU64(EncodeVarint(v) + rest) == Got(v, rest)
    ensures v < TWO32 ==> ReadU32(EncodeVarint(v) + rest) == Got(v, rest)
  {
    hide ReadVarint, EncodeVarint;
    Varint64RoundTrip(v, rest);
    CutTo64(v);
  }

  lemma CutTo64(v: U64)
    ensures v % TWO64 == v && (v < TWO32 ==> v % TWO32 == v)
  {
  }

  lemma ReadNumberField(tag: Byte, v: U64, rest: seq<Byte>)
    requires tag < 128
    ensures ReadTag(NumberField(tag, v) + rest) == Tag(tag, EncodeVarint(v) + rest)
    ensures ReadU64(EncodeVarint(v) + rest) == Got(v, rest)
    ensures v < TWO32 ==> ReadU32(EncodeVarint(v) + rest) == Got(v, rest)
  {
    assert NumberField(tag, v) + rest == [tag] + (EncodeVarint(v) + rest);
    ReadTagByte(tag, EncodeVarint(v) + rest);
    ReadNumber(v, rest);
  }

  /** Parsing a serialized SenderId merges it into the receiver and goes on with what follows. */
  lemma ParseSerializedSender(m: SenderId, b: SenderId, rest: seq<Byte>)
    ensures ParseSender(m, SerializeSender(b) + rest) == ParseSender(MergeSender(m, b), rest)
  {
    hide ReadVarint, EncodeVarint, ReadTag;
    var tail := InstanceIdField(b) + rest;
    var m1 := m.(typeId := Later(m.typeId, b.typeId));
    assert SerializeSender(b) + rest == TypeIdField(b) + tail;
    assert ParseSender(m, TypeIdField(b) + tail) == ParseSender(m1, tail) by {
      if b.typeId.Some? {
        ReadNumberField(8, b.typeId.value, tail);
      } else {
        assert TypeIdField(b) + tail == tail;
      }
    }
    assert ParseSender(m1, tail) == ParseSender(MergeSender(m, b), rest) by {
      if b.instanceId.Some? {
        ReadNumberField(16, b.instanceId.value, rest);
      } else {
        assert tail == rest;
      }
    }
  }

  lemma SenderRoundTrip(m: SenderId, b: SenderId)
    ensures ParseSender(m, SerializeSender(b)) == Done(MergeSender(m, b), true)
  {
    ParseSerializedSender(m, b, []);
    assert SerializeSender(b) + [] == SerializeSender(b);
  }

  // ---- StateBroadcast ----

  const LAST_FIELD := 9

  /** Tag of field k: the field number and its wire type. */
  function TagOf(k: int): (t: Byte)
    requires 1 <= k <= LAST_FIELD
    ensures t < 128 && t / 8 == k
  {
    if k == 3 || k == 4 || k == 8 then 8 * k + 2 else 8 * k
  }

  function FieldOf(tag: U32): (k: int)
    ensures 0 <= k <= LAST_FIELD
    ensures k != 0 ==> tag == TagOf(k)
    ensures forall j :: 1 <= j <= LAST_FIELD && tag == TagOf(j) ==> k == j
  {
    var k := tag / 8;
    if 1 <= k <= LAST_FIELD && tag == TagOf(k) then k else 0
  }

  predicate Has(m: Broadcast, k: int) {
    match k
    case 1 => m.zmqPubPort.Some?
    case 2 => m.zmqRepPort.Some?
    case 3 => m.senderId.Some?
    case 4 => m.senderName.Some?
    case 5 => m.version.Some?
    case 6 => m.lifecycleState.Some?
    case 7 => m.additionalLifecycleInfos.Some?
    case 8 => m.additionalStateInfos.Some?
    case 9 => m.multicastIdentifier.Some?
    case _ => false
  }

  /** The length limit the writer checks. */
  predicate Encodable(m: Broadcast) {
    && (m.senderName.Some? ==> |m.senderName.value| <= MAX_LENGTH)
    && (m.additionalStateInfos.Some? ==> |m.additionalStateInfos.value| <= MAX_LENGTH)
  }

  function Payload(m: Broadcast, k: int): seq<Byte>
    requires Has(m, k)
  {
    match k
    case 1 => EncodeVarint(m.zmqPubPort.value)
    case 2 => EncodeVarint(m.zmqRepPort.value)
    case 3 => EncodeRecord(SerializeSender(m.senderId.value))
    case 4 => EncodeRecord(m.senderName.value)
    case 5 => EncodeVarint(m.version.value)
    case 6 => EncodeVarint(m.lifecycleState.value)
    case 7 => EncodeVarint(m.additionalLifecycleInfos.value)
    case 8 => EncodeRecord(m.additionalStateInfos.value)
    case _ => EncodeVarint(m.multicastIdentifier.value)
  }

  function FieldBytes(m: Broadcast, k: int): seq<Byte>
    requires 1 <= k <= LAST_FIELD
  {
    if Has(m, k) then [TagOf(k)] + Payload(m, k) else []
  }

  /** The present fields from k on, in field order. */
  function SerializeFrom(m: Broadcast, k: int): seq<Byte>
    requires 1 <= k <= LAST_FIELD + 1
    decreases LAST_FIELD - k
  {
    if k > LAST_FIELD then [] else FieldBytes(m, k) + SerializeFrom(m, k + 1)
  }

  function Serialize(m: Broadcast): seq<Byte> {
    SerializeFrom(m, 1)
  }

  lemma SerializeUnfold(m: Broadcast)
    ensures Serialize(m) == SerializeFrom(m, 1) && SerializeFrom(m, LAST_FIELD + 1) == []
    ensures forall k :: 1 <= k <= LAST_FIELD ==> SerializeFrom(m, k) == FieldBytes(m, k) + SerializeFrom(m, k + 1)
  {
  }

  /** The bytes of a message: the present fields in the order of their numbers, each behind its tag. Numbers are varints;
      strings and the nested message are preceded by their length. */
  lemma Layout(m: Broadcast, nested: SenderId)
    requires m.senderId.Some? ==> nested == m.senderId.value
    ensures var sender := (if nested.typeId.Some? then [8] + EncodeVarint(nested.typeId.value) else [])
                          + (if nested.instanceId.Some? then [16] + EncodeVarint(nested.instanceId.value) else []);
            Serialize(m)
            == (if m.zmqPubPort.Some? then [8] + EncodeVarint(m.zmqPubPort.value) else [])
               + (if m.zmqRepPort.Some? then [16] + EncodeVarint(m.zmqRepPort.value) else [])
               + (if m.senderId.Some? then [26] + (EncodeVarint(|sender|) + sender) else [])
               + (if m.senderName.Some? then [34] + (EncodeVarint(|m.senderName.value|) + m.senderName.value) else [])
               + (if m.version.Some? then [40] + EncodeVarint(m.version.value) else [])
               + (if m.lifecycleState.Some? then [48] + EncodeVarint(m.lifecycleState.value) else [])
               + (if m.additionalLifecycleInfos.Some? then [56] + EncodeVarint(m.additionalLifecycleInfos.value) else [])
               + (if m.additionalStateInfos.Some? then
                    [66] + (EncodeVarint(|m.additionalStateInfos.value|) + m.additionalStateInfos.value) else [])
               + (if m.multicastIdentifier.Some? then [72] + EncodeVarint(m.multicastIdentifier.value) else [])
  {
    hide EncodeVarint, SerializeFrom;
    FieldsOneByOne(m);
  }

  lemma FieldsOneByOne(m: Broadcast)
    ensures SerializeFrom(m, 1)
         == FieldBytes(m, 1) + FieldBytes(m, 2) + FieldBytes(m, 3) + FieldBytes(m, 4) + FieldBytes(m, 5) + FieldBytes(m, 6)
            + FieldBytes(m, 7) + FieldBytes(m, 8) + FieldBytes(m, 9)
  {
    SerializeUnfold(m);
    hide SerializeFrom, FieldBytes;
  }

  // ---- Readers that do not know a field ----

  /** A reader that does not know the field skips exactly its value: the tag says how the value is written. */
  lemma FieldIsSkipped(m: Broadcast, k: int, rest: seq<Byte>)
    requires 1 <= k <= LAST_FIELD && Has(m, k) && Encodable(m)
    ensures SkipField(TagOf(k), Payload(m, k) + rest) == Got((), rest)
  {
    hide ReadVarint, EncodeVarint, EncodeRecord, ReadRecord, SerializeSender;
    match k {
      case 1 => Varint64RoundTrip(m.zmqPubPort.value, rest);
      case 2 => Varint64RoundTrip(m.zmqRepPort.value, rest);
      case 3 =>
        SenderIsShort(m.senderId.value);
        RecordRoundTrip(SerializeSender(m.senderId.value), rest);
      case 4 => RecordRoundTrip(m.senderName.value, rest);
      case 5 => Varint64RoundTrip(m.version.value, rest);
      case 6 => Varint64RoundTrip(m.lifecycleState.value, rest);
      case 7 => Varint64RoundTrip(m.additionalLifecycleInfos.value, rest);
      case 8 => RecordRoundTrip(m.additionalStateInfos.value, rest);
      case _ => Varint64RoundTrip(m.multicastIdentifier.value, rest);
    }
  }

  lemma SenderIsShort(m: SenderId)
    ensures |SerializeSender(m)| <= 0x7fff_ffff
  {
    if m.typeId.Some? { VarintSizeIsLength(m.typeId.value); }
    if m.instanceId.Some? { VarintSizeIsLength(m.instanceId.value); }
  }

  /** The same of the two fields of a SenderId. */
  lemma SenderFieldIsSkipped(v: U64, rest: seq<Byte>)
    ensures SkipField(8, EncodeVarint(v) + rest) == Got((), rest) && SkipField(16, EncodeVarint(v) + rest) == Got((), rest)
  {
    hide ReadVarint, EncodeVarint;
    Varint64RoundTrip(v, rest);
  }

  lemma FixedIsSkipped(number: U16, b: seq<Byte>, rest: seq<Byte>)
    ensures |b| == 8 ==> SkipField(8 * number + 1, b + rest) == Got((), rest)
    ensures |b| == 4 ==> SkipField(8 * number + 5, b + rest) == Got((), rest)
  {
    assert (b + rest)[|b|..] == rest;
  }

  /** What the loop over a group does at its head. */
  lemma GroupHead(number: nat, t: Byte, s: seq<Byte>)
    requires 0 < t < 128
    ensures t % 8 == 4 ==> SkipGroup(number, [t] + s) == if t / 8 == number then Got((), s) else Fail
    ensures t % 8 != 4 && SkipField(t, s).Got? ==> SkipGroup(number, [t] + s) == SkipGroup(number, SkipField(t, s).rest)
  {
    ReadTagByte(t, s);
    hide ReadTag, SkipField;
  }

  lemma GroupSkipsField(number: nat, m: Broadcast, k: int, rest: seq<Byte>)
    requires 1 <= k <= LAST_FIELD && Encodable(m)
    ensures SkipGroup(number, FieldBytes(m, k) + rest) == SkipGroup(number, rest)
  {
    hide SkipGroup, SkipField, Payload, Encodable, Has;
    if Has(m, k) {
      FieldIsSkipped(m, k, rest);
      assert FieldBytes(m, k) + rest == [TagOf(k)] + (Payload(m, k) + rest);
      TagEndsNoGroup(k);
      hide TagOf;
      GroupHead(number, TagOf(k), Payload(m, k) + rest);
    } else {
      assert FieldBytes(m, k) + rest == rest;
    }
  }

  lemma TagEndsNoGroup(k: int)
    requires 1 <= k <= LAST_FIELD
    ensures 0 < TagOf(k) < 128 && TagOf(k) % 8 != 4
  {
  }

  lemma {:induction false} GroupSkipsFields(number: nat, m: Broadcast, k: int, rest: seq<Byte>)
    requires 1 <= k <= LAST_FIELD + 1 && Encodable(m)
    ensures SkipGroup(number, SerializeFrom(m, k) + rest) == SkipGroup(number, rest)
    decreases LAST_FIELD - k
  {
    hide SkipGroup, FieldBytes, Encodable;
    if k > LAST_FIELD {
      assert SerializeFrom(m, k) + rest == rest;
    } else {
      var tail := SerializeFrom(m, k + 1) + rest;
      GroupSkipsFields(number, m, k + 1, rest);
      assert SerializeFrom(m, k) + rest == FieldBytes(m, k) + tail;
      GroupSkipsField(number, m, k, tail);
    }
  }

  /** An unknown group, here with the fields of any message in it, is skipped to its own end tag. */
  lemma GroupIsSkipped(number: nat, m: Broadcast, rest: seq<Byte>)
    requires 1 <= number <= 15 && Encodable(m)
    ensures SkipField(8 * number + 3, Serialize(m) + [8 * number + 4] + rest) == Got((), rest)
  {
    hide SkipField, SkipGroup, SerializeFrom;
    var end: Byte := 8 * number + 4;
    var s := Serialize(m) + [end] + rest;
    assert s == SerializeFrom(m, 1) + ([end] + rest);
    GroupSkipsFields(number, m, 1, [end] + rest);
    GroupHead(number, end, rest);
    GroupTag(number, s);
  }

  lemma GroupTag(number: nat, s: seq<Byte>)
    requires number <= 15
    ensures SkipField(8 * number + 3, s) == SkipGroup(number, s)
  {
    hide SkipGroup;
  }

  /** A number of more than ten bytes is not read. */
  lemma {:induction false} LongVarintFails(s: seq<Byte>, left: nat)
    requires |s| >= left && forall i :: 0 <= i < left ==> s[i] >= 128
    ensures ReadVarint(s, left).Fail? && (left == 10 ==> ReadVarint(s, MAX_VARINT_BYTES).Fail?)
    decreases left
  {
    if left > 0 { LongVarintFails(s[1..], left - 1); }
  }

  function MergeField(a: Broadcast, b: Broadcast, k: int): Broadcast
    requires 1 <= k <= LAST_FIELD
  {
    if !Has(b, k) then a
    else match k
      case 1 => a.(zmqPubPort := b.zmqPubPort)
      case 2 => a.(zmqRepPort := b.zmqRepPort)
      case 3 => a.(senderId := Some(MergeSender(SenderIn(a), b.senderId.value)))
      case 4 => a.(senderName := b.senderName)
      case 5 => a.(version := b.version)
      case 6 => a.(lifecycleState := b.lifecycleState)
      case 7 => a.(additionalLifecycleInfos := b.additionalLifecycleInfos)
      case 8 => a.(additionalStateInfos := b.additionalStateInfos)
      case _ => a.(multicastIdentifier := b.multicastIdentifier)
  }

  function MergeFrom(a: Broadcast, b: Broadcast, k: int): Broadcast
    requires 1 <= k <= LAST_FIELD + 1
    decreases LAST_FIELD - k
  {
    if k > LAST_FIELD then a else MergeFrom(MergeField(a, b, k), b, k + 1)
  }

  /** Field by field: the later value wins, the nested SenderId is merged. */
  function Merge(a: Broadcast, b: Broadcast): Broadcast {
    Broadcast(
      Later(a.zmqPubPort, b.zmqPubPort),
      Later(a.zmqRepPort, b.zmqRepPort),
      if a.senderId.Some? && b.senderId.Some? then Some(MergeSender(a.senderId.value, b.senderId.value))
      else Later(a.senderId, b.senderId),
      Later(a.senderName, b.senderName),
      Later(a.version, b.version),
      Later(a.lifecycleState, b.lifecycleState),
      Later(a.additionalLifecycleInfos, b.additionalLifecycleInfos),
      Later(a.additionalStateInfos, b.additionalStateInfos),
      Later(a.multicastIdentifier, b.multicastIdentifier))
  }

  /** The nested message a field of it is read into. */
  function SenderIn(m: Broadcast): SenderId {
    if m.senderId.Some? then m.senderId.value else EMPTY_SENDER
  }

  function TextIn(f: Option<seq<Byte>>): seq<Byte> {
    if f.Some? then f.value else []
  }

  /** Reads the value of field k into m. The nested message must use up its bytes. Nested message and strings are there
      even when reading them fails. */
  function ReadField(m: Broadcast, k: int, s: seq<Byte>): (r: FieldRead<Broadcast>)
    requires 1 <= k <= LAST_FIELD
    ensures r.Taken? ==> |r.rest| < |s|
  {
    if k == 3 then
      match ReadLimited(s)
      case Fail => Broken(m.(senderId := Some(SenderIn(m))))
      case Got(b, rest) =>
        var inner := ParseSender(SenderIn(m), b);
        var m' := m.(senderId := Some(inner.msg));
        if inner.Done? && inner.atEnd then Taken(m', rest) else Broken(m')
    else if k == 4 then
      var m' := m.(senderName := Some(StringAfter(TextIn(m.senderName), s)));
      if ReadRecord(s).Got? then Taken(m', ReadRecord(s).rest) else Broken(m')
    else if k == 8 then
      var m' := m.(additionalStateInfos := Some(StringAfter(TextIn(m.additionalStateInfos), s)));
      if ReadRecord(s).Got? then Taken(m', ReadRecord(s).rest) else Broken(m')
    else
      match ReadU32(s)
      case Fail => Broken(m)
      case Got(v, rest) => Taken(SetNumber(m, k, v), rest)
  }

  function SetNumber(m: Broadcast, k: int, v: U32): Broadcast {
    match k
    case 1 => m.(zmqPubPort := Some(v))
    case 2 => m.(zmqRepPort := Some(v))
    case 5 => m.(version := Some(v))
    case 6 => m.(lifecycleState := Some(v))
    case 7 => m.(additionalLifecycleInfos := Some(v))
    case _ => m.(multicastIdentifier := Some(v))
  }

  /** The plain tag loop: one tag, then its value, until the input ends. */
  function Parse(m: Broadcast, s: seq<Byte>): Parsed<Broadcast>
    decreases |s|
  {
    match ReadTag(s)
    case AtEnd => Done(m, true)
    case BadTag => Done(m, false)
    case Tag(t, rest) =>
      var k := FieldOf(t);
      if k != 0 then ParseValue(m, k, rest)
      else if t == 0 || t % 8 == 4 then Done(m, false)
      else match SkipField(t, rest)
        case Fail => Failed(m)
        case Got(_, rest') => Parse(m, rest')
  }

  /** The tag of field k has been read: its value comes next. */
  function ParseValue(m: Broadcast, k: int, s: seq<Byte>): Parsed<Broadcast>
    requires 1 <= k <= LAST_FIELD
    decreases |s|
  {
    match ReadField(m, k, s)
    case Broken(m') => Failed(m')
    case Taken(m', rest) => Parse(m', rest)
  }

  /** What the head of the tag loop does. */
  lemma ParseHead(m: Broadcast, s: seq<Byte>)
    ensures ReadTag(s).AtEnd? ==> Parse(m, s) == Done(m, true)
    ensures ReadTag(s).BadTag? ==> Parse(m, s) == Done(m, false)
    ensures ReadTag(s).Tag? ==>
              var t, rest := ReadTag(s).tag, ReadTag(s).rest;
              if FieldOf(t) != 0 then Parse(m, s) == ParseValue(m, FieldOf(t), rest)
              else if t == 0 || t % 8 == 4 then Parse(m, s) == Done(m, false)
              else if SkipField(t, rest).Fail? then Parse(m, s) == Failed(m)
              else Parse(m, s) == Parse(m, SkipField(t, rest).rest)
  {
  }

  // ---- Malformed input ----

  /** The parse of a message stops, without having come to the end, at a zero tag, at an end tag without its group and at a tag
      that cannot be read; at the end of the input it is done. */
  lemma ParseStops(m: Broadcast, i: SenderId, t: Byte, s: seq<Byte>)
    requires t < 128 && (t == 0 || t % 8 == 4)
    ensures Parse(m, []) == Done(m, true) && Parse(m, [t] + s) == Done(m, false)
    ensures ParseSender(i, []) == Done(i, true) && ParseSender(i, [t] + s) == Done(i, false)
    ensures s != [] && ReadVarint(s, 10) == Fail ==> Parse(m, s) == Done(m, false) && ParseSender(i, s) == Done(i, false)
  {
    ReadTagByte(t, s);
    hide ReadVarint, SkipField;
  }

  /** A field the message does not have, or one of its own under another wire type, is skipped if it can be and ends the parse
      if it cannot; the message does not change. */
  lemma UnknownIsIgnored(m: Broadcast, i: SenderId, t: Byte, s: seq<Byte>)
    requires 0 < t < 128 && t % 8 != 4
    ensures t !in {8, 16, 26, 34, 40, 48, 56, 66, 72} ==>
              Parse(m, [t] + s) == if SkipField(t, s).Got? then Parse(m, SkipField(t, s).rest) else Failed(m)
    ensures t !in {8, 16} ==>
              ParseSender(i, [t] + s) == if SkipField(t, s).Got? then ParseSender(i, SkipField(t, s).rest) else Failed(i)
  {
    ReadTagByte(t, s);
    assert t !in {8, 16, 26, 34, 40, 48, 56, 66, 72} ==> FieldOf(t) == 0;
    hide ReadVarint, SkipField, ReadTag;
    ParseHead(m, [t] + s);
    ParseSenderHead(i, [t] + s);
    hide Parse, ParseSender;
  }

  /** A nested message that stops before the end of its record, or fails in it, fails the message around it; what was read of
      it stays. */
  lemma NestedMustEnd(m: Broadcast, b: seq<Byte>, rest: seq<Byte>)
    requires |b| <= 0x7fff_ffff
    ensures var before := if m.senderId.Some? then m.senderId.value else SenderId(None, None);
            var inner := ParseSender(before, b);
            ReadField(m, 3, EncodeRecord(b) + rest)
            == if inner == Done(inner.msg, true) then Taken(m.(senderId := Some(inner.msg)), rest)
               else Broken(m.(senderId := Some(inner.msg)))
  {
    hide ReadRecord, ReadLimited, EncodeRecord, ParseSender;
    RecordRoundTrip(b, rest);
    RecordIsLimited(EncodeRecord(b) + rest);
  }

  /** A record that is cut short does not read. As a nested message it ends where the input ends; a string keeps what there is
      of it, unless the length it was given is beyond the range of int. */
  lemma CutRecordReads(before: seq<Byte>, n: U32, part: seq<Byte>)
    requires |part| < n
    ensures var s := EncodeVarint(n) + part;
            && ReadRecord(s) == Fail && ReadLimited(s) == Got(part, [])
            && StringAfter(before, s) == if n > 0x7fff_ffff then before else part
  {
    hide ReadVarint, EncodeVarint;
    Varint64RoundTrip(n, part);
    assert part[..|part|] == part && part[|part|..] == [];
  }

  /** A value whose length, or number, cannot be read at all ends the parse. The string or nested message is there then, with
      what it held before; a number is as it was. */
  lemma UnreadableLeavesField(m: Broadcast, k: int, s: seq<Byte>)
    requires 1 <= k <= LAST_FIELD && ReadVarint(s, 10) == Fail
    ensures ReadField(m, k, s)
         == if k == 3 then Broken(m.(senderId := Some(if m.senderId.Some? then m.senderId.value else SenderId(None, None))))
            else if k == 4 then Broken(m.(senderName := Some(if m.senderName.Some? then m.senderName.value else [])))
            else if k == 8 then
              Broken(m.(additionalStateInfos := Some(if m.additionalStateInfos.Some? then m.additionalStateInfos.value else [])))
            else Broken(m)
  {
    hide ReadVarint, ParseSender;
  }

  /** An unknown group fails where the input ends in it, at a zero tag, and at the end tag of another group; fields of fixed
      width in it are skipped like the others. */
  lemma GroupEnds(number: nat, other: nat, b: seq<Byte>, s: seq<Byte>)
    requires 1 <= number <= 15 && 1 <= other <= 15
    ensures SkipGroup(number, []) == Fail && SkipGroup(number, [0] + s) == Fail
    ensures SkipGroup(number, [8 * other + 4] + s) == if other == number then Got((), s) else Fail
    ensures |b| == 8 ==> SkipGroup(number, [8 * other + 1] + b + s) == SkipGroup(number, s)
    ensures |b| == 4 ==> SkipGroup(number, [8 * other + 5] + b + s) == SkipGroup(number, s)
  {
    GroupStops(number, s);
    hide SkipField, SkipGroup;
    GroupHead(number, 8 * other + 4, s);
    GroupHead(number, 8 * other + 1, b + s);
    GroupHead(number, 8 * other + 5, b + s);
    FixedIsSkipped(other, b, s);
    assert [8 * other + 1] + b + s == [8 * other + 1] + (b + s);
    assert [8 * other + 5] + b + s == [8 * other + 5] + (b + s);
  }

  lemma GroupStops(number: nat, s: seq<Byte>)
    ensures SkipGroup(number, []) == Fail && SkipGroup(number, [0] + s) == Fail
  {
    ReadTagByte(0, s);
  }

  /** A value written for field k is read back, merged into the receiver. */
  lemma FieldRoundTrip(m: Broadcast, b: Broadcast, k: int, rest: seq<Byte>)
    requires 1 <= k <= LAST_FIELD && Has(b, k) && Encodable(b)
    ensures ReadField(m, k, Payload(b, k) + rest) == Taken(MergeField(m, b, k), rest)
  {
    match k {
      case 1 => ReadNumber(b.zmqPubPort.value, rest);
      case 2 => ReadNumber(b.zmqRepPort.value, rest);
      case 3 =>
        SenderByteSizeIsLength(b.senderId.value);
        RecordRoundTrip(SerializeSender(b.senderId.value), rest);
        RecordIsLimited(Payload(b, k) + rest);
        SenderRoundTrip(SenderIn(m), b.senderId.value);
      case 4 => RecordRoundTrip(b.senderName.value, rest);
      case 5 => ReadNumber(b.version.value, rest);
      case 6 => ReadNumber(b.lifecycleState.value, rest);
      case 7 => ReadNumber(b.additionalLifecycleInfos.value, rest);
      case 8 => RecordRoundTrip(b.additionalStateInfos.value, rest);
      case _ => ReadNumber(b.multicastIdentifier.value, rest);
    }
  }

  /** One turn of the tag loop. */
  lemma ParseOneField(m: Broadcast, k: int, s: seq<Byte>, m': Broadcast, rest: seq<Byte>)
    requires 1 <= k <= LAST_FIELD
    requires ReadField(m, k, s) == Taken(m', rest)
    ensures Parse(m, [TagOf(k)] + s) == Parse(m', rest)
  {
    ReadTagByte(TagOf(k), s);
  }

  lemma ParseField(m: Broadcast, b: Broadcast, k: int, tail: seq<Byte>)
    requires 1 <= k <= LAST_FIELD && Encodable(b)
    ensures Parse(m, FieldBytes(b, k) + tail) == Parse(MergeField(m, b, k), tail)
  {
    hide Parse, Payload, ReadField;
    if Has(b, k) {
      var after := Payload(b, k) + tail;
      FieldRoundTrip(m, b, k, tail);
      ParseOneField(m, k, after, MergeField(m, b, k), tail);
      assert FieldBytes(b, k) + tail == [TagOf(k)] + after;
    } else {
      assert FieldBytes(b, k) + tail == tail;
    }
  }

  lemma {:induction false} ParseSerializedFrom(m: Broadcast, b: Broadcast, k: int, rest: seq<Byte>)
    requires 1 <= k <= LAST_FIELD + 1 && Encodable(b)
    ensures Parse(m, SerializeFrom(b, k) + rest) == Parse(MergeFrom(m, b, k), rest)
    decreases LAST_FIELD - k
  {
    hide Parse, FieldBytes, MergeField;
    if k > LAST_FIELD {
      assert SerializeFrom(b, k) + rest == rest;
    } else {
      var tail := SerializeFrom(b, k + 1) + rest;
      ParseSerializedFrom(MergeField(m, b, k), b, k + 1, rest);
      ParseField(m, b, k, tail);
      assert SerializeFrom(b, k) + rest == FieldBytes(b, k) + tail;
    }
  }

  lemma MergeByField(a: Broadcast, b: Broadcast)
    ensures MergeFrom(a, b, 1) == Merge(a, b)
  {
    var m1 := MergeField(a, b, 1);
    var m2 := MergeField(m1, b, 2);
    var m3 := MergeField(m2, b, 3);
    var m4 := MergeField(m3, b, 4);
    var m5 := MergeField(m4, b, 5);
    var m6 := MergeField(m5, b, 6);
    var m7 := MergeField(m6, b, 7);
    var m8 := MergeField(m7, b, 8);
    var m9 := MergeField(m8, b, 9);
    assert MergeFrom(a, b, 1) == MergeFrom(m3, b, 4);
    assert MergeFrom(m3, b, 4) == MergeFrom(m6, b, 7);
    assert MergeFrom(m6, b, 7) == MergeFrom(m9, b, 10);
  }

  /** Parsing a serialized message in front of other bytes merges it into the receiver. */
  lemma ParseSerialized(m: Broadcast, b: Broadcast, rest: seq<Byte>)
    requires Encodable(b)
    ensures Parse(m, Serialize(b) + rest) == Parse(Merge(m, b), rest)
  {
    ParseSerializedFrom(m, b, 1, rest);
    MergeByField(m, b);
  }

  /** Every message survives the wire with the same values and the same has-bits. */
  lemma RoundTrip(m: Broadcast)
    requires Encodable(m)
    ensures Parse(EMPTY_BROADCAST, Serialize(m)) == Done(m, true)
  {
    ParseSerialized(EMPTY_BROADCAST, m, []);
    assert Serialize(m) + [] == Serialize(m);
  }

  /** Two serialized messages one after the other are read as their merge. */
  lemma ConcatenationIsMerge(a: Broadcast, b: Broadcast)
    requires Encodable(a) && Encodable(b)
    ensures Parse(EMPTY_BROADCAST, Serialize(a) + Serialize(b)) == Done(Merge(a, b), true)
  {
    ParseSerialized(EMPTY_BROADCAST, a, Serialize(b));
    ParseSerialized(a, b, []);
    assert Serialize(b) + [] == Serialize(b);
    assert Merge(EMPTY_BROADCAST, a) == a;
  }

  predicate SenderInitialized(m: SenderId) {
    m.typeId.Some? && m.instanceId.Some?
  }

  /** All required fields are present: 1 to 6, and 9. */
  predicate Initialized(m: Broadcast) {
    && Has(m, 1) && Has(m, 2) && Has(m, 3) && Has(m, 4) && Has(m, 5) && Has(m, 6) && Has(m, 9)
    && SenderInitialized(m.senderId.value)
  }

  /** What a parse of an array reports as a success: a complete parse of an initialized message. */
  function Accepted(s: seq<Byte>): Option<Broadcast> {
    var p := Parse(EMPTY_BROADCAST, s);
    if p.Done? && p.atEnd && Initialized(p.msg) then Some(p.msg) else None
  }

  /** What a parse of an array leaves in the message, success or not. */
  function Received(s: seq<Byte>): Broadcast {
    Parse(EMPTY_BROADCAST, s).msg
  }

  lemma AcceptedExactlyWhenInitialized(m: Broadcast)
    requires Encodable(m)
    ensures Accepted(Serialize(m)) == if Initialized(m) then Some(m) else None
    ensures Accepted(Serialize(m)).Some?
       <==> m.zmqPubPort.Some? && m.zmqRepPort.Some? && m.senderName.Some? && m.version.Some? && m.lifecycleState.Some?
            && m.multicastIdentifier.Some? && m.senderId.Some? && m.senderId.value.typeId.Some?
            && m.senderId.value.instanceId.Some?
  {
    RoundTrip(m);
  }

  /** Different messages have different bytes. */
  lemma SerializeIsInjective(a: Broadcast, b: Broadcast)
    requires Encodable(a) && Encodable(b) && Serialize(a) == Serialize(b)
    ensures a == b
  {
    RoundTrip(a);
    RoundTrip(b);
  }

  // ---- Sizes ----

  function NumberSize(f: Option<U32>): nat {
    if f.Some? then 1 + VarintSize(f.value) else 0
  }

  /** Tag, length prefix and content of a length-delimited field. */
  function RecordSize(len: nat): nat {
    1 + (if len < TWO64 then VarintSize(len) else 10) + len
  }

  function BytesSize(f: Option<seq<Byte>>): nat {
    if f.Some? then RecordSize(|f.value|) else 0
  }

  function SenderByteSize(m: SenderId): (n: nat)
    ensures n <= 22
  {
    (if m.typeId.Some? then 1 + VarintSize(m.typeId.value) else 0)
    + (if m.instanceId.Some? then 1 + VarintSize(m.instanceId.value) else 0)
  }

  lemma SenderByteSizeIsLength(m: SenderId)
    ensures SenderByteSize(m) == |SerializeSender(m)|
  {
    if m.typeId.Some? { VarintSizeIsLength(m.typeId.value); }
    if m.instanceId.Some? { VarintSizeIsLength(m.instanceId.value); }
  }

  function FieldSize(m: Broadcast, k: int): nat
    requires Encodable(m)
  {
    match k
    case 1 => NumberSize(m.zmqPubPort)
    case 2 => NumberSize(m.zmqRepPort)
    case 3 => if m.senderId.Some? then RecordSize(SenderByteSize(m.senderId.value)) else 0
    case 4 => BytesSize(m.senderName)
    case 5 => NumberSize(m.version)
    case 6 => NumberSize(m.lifecycleState)
    case 7 => NumberSize(m.additionalLifecycleInfos)
    case 8 => BytesSize(m.additionalStateInfos)
    case _ => NumberSize(m.multicastIdentifier)
  }

  lemma FieldSizeIsLength(m: Broadcast, k: int)
    requires 1 <= k <= LAST_FIELD && Encodable(m)
    ensures FieldSize(m, k) == |FieldBytes(m, k)|
  {
    if Has(m, k) {
      match k {
        case 1 => VarintSizeIsLength(m.zmqPubPort.value);
        case 2 => VarintSizeIsLength(m.zmqRepPort.value);
        case 3 =>
          SenderByteSizeIsLength(m.senderId.value);
          VarintSizeIsLength(SenderByteSize(m.senderId.value));
        case 4 => VarintSizeIsLength(|m.senderName.value|);
        case 5 => VarintSizeIsLength(m.version.value);
        case 6 => VarintSizeIsLength(m.lifecycleState.value);
        case 7 => VarintSizeIsLength(m.additionalLifecycleInfos.value);
        case 8 => VarintSizeIsLength(|m.additionalStateInfos.value|);
        case _ => VarintSizeIsLength(m.multicastIdentifier.value);
      }
    }
  }

  /** The sizes of fields k to 9. */
  function SizeFrom(m: Broadcast, k: int): nat
    requires 1 <= k <= LAST_FIELD + 1 && Encodable(m)
    decreases LAST_FIELD - k
  {
    if k > LAST_FIELD then 0 else FieldSize(m, k) + SizeFrom(m, k + 1)
  }

  lemma {:induction false} SizeIsLength(m: Broadcast, k: int)
    requires 1 <= k <= LAST_FIELD + 1 && Encodable(m)
    ensures SizeFrom(m, k) == |SerializeFrom(m, k)|
    decreases LAST_FIELD - k
  {
    if k <= LAST_FIELD {
      FieldSizeIsLength(m, k);
      SizeIsLength(m, k + 1);
    }
  }

  /** The length of the serialized message as the sum the size function computes. */
  lemma SerializedSize(m: Broadcast)
    requires Encodable(m)
    ensures m.senderId.Some? ==> |SerializeSender(m.senderId.value)| <= MAX_LENGTH
    ensures |Serialize(m)|
         == NumberSize(m.zmqPubPort) + NumberSize(m.zmqRepPort)
            + (if m.senderId.Some? then RecordSize(|SerializeSender(m.senderId.value)|) else 0)
            + BytesSize(m.senderName)
            + NumberSize(m.version) + NumberSize(m.lifecycleState) + NumberSize(m.additionalLifecycleInfos)
            + BytesSize(m.additionalStateInfos)
            + NumberSize(m.multicastIdentifier)
  {
    SizeIsLength(m, 1);
    assert SizeFrom(m, 1) == FieldSize(m, 1) + FieldSize(m, 2) + FieldSize(m, 3) + SizeFrom(m, 4);
    assert SizeFrom(m, 4) == FieldSize(m, 4) + FieldSize(m, 5) + FieldSize(m, 6) + SizeFrom(m, 7);
    assert SizeFrom(m, 7) == FieldSize(m, 7) + FieldSize(m, 8) + FieldSize(m, 9) + SizeFrom(m, 10);
    if m.senderId.Some? { SenderByteSizeIsLength(m.senderId.value); }
  }
}
