/** The generated message classes: parsing with the expect-tag fast path, both writers, the size function and merging,
    each proved against the functions of module Wire. */
module Proto {
  import opened Types
  import opened Wire

  /** The input of a parse: a position and a limit in a buffer. */
  class CodedInputStream {
    const buffer: seq<Byte>
    var pos: nat
    var limit: nat
    var legitimateEnd: bool

    ghost predicate Valid() reads this { pos <= limit <= |buffer| }

    ghost function Remaining(): seq<Byte>
      reads this
      requires Valid()
    {
      buffer[pos..limit]
    }

    constructor (buffer: seq<Byte>)
      ensures Valid() && Remaining() == buffer
    {
      this.buffer := buffer;
      pos, limit, legitimateEnd := 0, |buffer|, false;
    }

    /** Moves to where only rest remains. */
    method Advance(rest: seq<Byte>)
      requires Valid()
      requires IsSuffix(rest, Remaining())
      modifies `pos
      ensures Valid() && Remaining() == rest
    {
      pos := limit - |rest|;
    }

    /** The tag, and whether it lies in 1..cutoff. Tag 0 stands for the end and for an unreadable tag. */
    method ReadTagWithCutoff(cutoff: U32) returns (tag: U32, below: bool)
      requires Valid()
      modifies `pos, `legitimateEnd
      ensures Valid() && below == (1 <= tag <= cutoff)
      ensures match ReadTag(old(Remaining()))
              case AtEnd => tag == 0 && legitimateEnd && Remaining() == []
              case BadTag => tag == 0 && !legitimateEnd
              case Tag(t, rest) => tag == t && !legitimateEnd && Remaining() == rest
    {
      legitimateEnd := pos == limit;
      tag := 0;
      match ReadTag(buffer[pos..limit]) {
        case AtEnd =>
        case BadTag =>
        case Tag(t, rest) =>
          ReadTagSuffix(buffer[pos..limit]);
          Advance(rest);
          tag := t;
      }
      below := 1 <= tag <= cutoff;
    }

    /** Takes the one-byte tag if it comes next. */
    method ExpectTag(tag: Byte) returns (found: bool)
      requires Valid()
      modifies `pos
      ensures Valid()
      ensures found == (old(Remaining()) != [] && old(Remaining())[0] == tag)
      ensures Remaining() == if found then old(Remaining())[1..] else old(Remaining())
    {
      found := pos < limit && buffer[pos] == tag;
      if found { pos := pos + 1; }
    }

    method ExpectAtEnd() returns (end: bool)
      requires Valid()
      modifies `legitimateEnd
      ensures Valid() && end == (Remaining() == [])
      ensures legitimateEnd == (end || old(legitimateEnd))
    {
      end := pos == limit;
      if end { legitimateEnd := true; }
    }

    method ReadUInt32() returns (ok: bool, v: U32)
      requires Valid()
      modifies `pos
      ensures Valid()
      ensures match ReadU32(old(Remaining()))
              case Fail => !ok
              case Got(x, rest) => ok && v == x && Remaining() == rest
    {
      ok, v := false, 0;
      match ReadU32(buffer[pos..limit])
      case Fail =>
      case Got(x, rest) =>
        ReadVarintSuffix(buffer[pos..limit], MAX_VARINT_BYTES);
        Advance(rest);
        ok, v := true, x;
    }

    method ReadUInt64() returns (ok: bool, v: U64)
      requires Valid()
      modifies `pos
      ensures Valid()
      ensures match ReadU64(old(Remaining()))
              case Fail => !ok
              case Got(x, rest) => ok && v == x && Remaining() == rest
    {
      ok, v := false, 0;
      match ReadU64(buffer[pos..limit])
      case Fail =>
      case Got(x, rest) =>
        ReadVarintSuffix(buffer[pos..limit], MAX_VARINT_BYTES);
        Advance(rest);
        ok, v := true, x;
    }

    /** Reads a record into a string: b is what the string holds after it, be that a success or not. */
    method ReadString(before: seq<Byte>) returns (ok: bool, b: seq<Byte>)
      requires Valid()
      modifies `pos
      ensures Valid() && b == StringAfter(before, old(Remaining()))
      ensures match ReadRecord(old(Remaining()))
              case Fail => !ok
              case Got(_, rest) => ok && Remaining() == rest
    {
      ok, b := false, before;
      match ReadVarint(buffer[pos..limit], MAX_VARINT_BYTES)
      case Fail =>
      case Got(n, rest) =>
        ReadVarintSuffix(buffer[pos..limit], MAX_VARINT_BYTES);
        Advance(rest);
        var len := n % TWO32;
        if len <= limit - pos {
          b := buffer[pos..pos + len];
          pos := pos + len;
          ok := true;
        } else if len <= MAX_LENGTH {
          b := buffer[pos..limit];
        }
    }

    /** Reads a length and limits the stream to that many bytes, or to the limit it has. */
    method PushLimit() returns (ok: bool, oldLimit: nat)
      requires Valid()
      modifies `pos, `limit
      ensures Valid()
      ensures match ReadLimited(old(Remaining()))
              case Fail => !ok
              case Got(b, rest) => ok && Remaining() == b && limit <= oldLimit <= |buffer| && buffer[limit..oldLimit] == rest
    {
      ok, oldLimit := false, limit;
      match ReadVarint(buffer[pos..limit], MAX_VARINT_BYTES)
      case Fail =>
      case Got(n, rest) =>
        ReadVarintSuffix(buffer[pos..limit], MAX_VARINT_BYTES);
        Advance(rest);
        var len := n % TWO32;
        if len <= limit - pos {
          limit := pos + len;
        }
        ok := true;
    }

    method PopLimit(oldLimit: nat)
      requires Valid() && limit <= oldLimit <= |buffer|
      modifies `limit
      ensures Valid() && Remaining() == old(Remaining()) + buffer[old(limit)..oldLimit]
    {
      limit := oldLimit;
    }

    method Skip(tag: U32) returns (ok: bool)
      requires Valid()
      modifies `pos
      ensures Valid()
      ensures match SkipField(tag, old(Remaining()))
              case Fail => !ok
              case Got(_, rest) => ok && Remaining() == rest
    {
      ok := false;
      match SkipField(tag, buffer[pos..limit])
      case Fail =>
      case Got(_, rest) =>
        SkipFieldSuffix(tag, buffer[pos..limit]);
        Advance(rest);
        ok := true;
    }
  }

  // ---- What a read leaves is a suffix of its input ----

  ghost predicate IsSuffix(rest: seq<Byte>, s: seq<Byte>) {
    |rest| <= |s| && s[|s| - |rest|..] == rest
  }

  lemma {:induction false} ReadVarintSuffix(s: seq<Byte>, left: nat)
    ensures ReadVarint(s, left).Got? ==> IsSuffix(ReadVarint(s, left).rest, s)
    decreases |s|
  {
    if s != [] && left > 0 && s[0] >= 128 {
      ReadVarintSuffix(s[1..], left - 1);
    }
  }

  lemma ReadRecordSuffix(s: seq<Byte>)
    ensures ReadRecord(s).Got? ==> IsSuffix(ReadRecord(s).rest, s)
  {
    ReadVarintSuffix(s, MAX_VARINT_BYTES);
  }

  lemma ReadTagSuffix(s: seq<Byte>)
    ensures ReadTag(s).Tag? ==> IsSuffix(ReadTag(s).rest, s)
  {
    ReadVarintSuffix(s, MAX_VARINT_BYTES);
  }

  lemma SuffixTrans(a: seq<Byte>, b: seq<Byte>, c: seq<Byte>)
    requires IsSuffix(a, b) && IsSuffix(b, c)
    ensures IsSuffix(a, c)
  {
    assert c[|c| - |a|..] == c[|c| - |b|..][|b| - |a|..];
  }

  lemma {:induction false} SkipFieldSuffix(tag: U32, s: seq<Byte>)
    ensures SkipField(tag, s).Got? ==> IsSuffix(SkipField(tag, s).rest, s)
    decreases |s|, 1
  {
    ReadVarintSuffix(s, MAX_VARINT_BYTES);
    ReadRecordSuffix(s);
    if tag % 8 == 3 {
      SkipGroupSuffix(tag / 8, s);
    }
  }

  lemma {:induction false} SkipGroupSuffix(number: nat, s: seq<Byte>)
    ensures SkipGroup(number, s).Got? ==> IsSuffix(SkipGroup(number, s).rest, s)
    decreases |s|, 0
  {
    var t := ReadTag(s);
    if t.Tag? && t.tag != 0 {
      ReadTagSuffix(s);
      if t.tag % 8 != 4 {
        var skipped := SkipField(t.tag, t.rest);
        if skipped.Got? {
          SkipFieldSuffix(t.tag, t.rest);
          SkipGroupSuffix(number, skipped.rest);
          SuffixTrans(skipped.rest, t.rest, s);
          if SkipGroup(number, skipped.rest).Got? {
            SuffixTrans(SkipGroup(number, skipped.rest).rest, skipped.rest, s);
          }
        }
      }
    }
  }

  /** A stream writer's target. */
  class CodedOutputStream {
    var out: seq<Byte>

    constructor ()
      ensures out == []
    {
      out := [];
    }

    method Write(bs: seq<Byte>)
      modifies this
      ensures out == old(out) + bs
    {
      out := out + bs;
    }
  }

  /** Writes bs at target and gives the position after it. */
  method WriteToArray(a: array<Byte>, target: nat, bs: seq<Byte>) returns (next: nat)
    requires target + |bs| <= a.Length
    modifies a
    ensures next == target + |bs|
    ensures a[..next] == old(a[..target]) + bs
    ensures a[next..] == old(a[next..])
  {
    next := target;
    while next < target + |bs|
      invariant target <= next <= target + |bs|
      invariant a[..next] == old(a[..target]) + bs[..next - target]
      invariant a[target + |bs|..] == old(a[target + |bs|..])
    {
      a[next] := bs[next - target];
      next := next + 1;
    }
  }

  class SenderIdMessage {
    var typeId: Option<U32>
    var instanceId: Option<U64>
    var cachedSize: nat

    ghost function Val(): SenderId reads this { SenderId(typeId, instanceId) }

    constructor ()
      ensures Val() == EMPTY_SENDER
    {
      typeId, instanceId, cachedSize := None, None, 0;
    }

    /** Label at: 0 is the head of the for loop, 2 is the label the fast path jumps to. */
    method MergePartialFromCodedStream(input: CodedInputStream) returns (ok: bool)
      requires input.Valid()
      modifies `typeId, `instanceId, input`pos, input`legitimateEnd
      ensures input.Valid()
      ensures match ParseSender(old(Val()), old(input.Remaining()))
              case Failed(m) => !ok && Val() == m
              case Done(m, atEnd) => ok && Val() == m && input.legitimateEnd == atEnd && (atEnd ==> input.Remaining() == [])
    {
      hide ParseSender, ReadTag, SkipField;
      ghost var goal := ParseSender(Val(), input.Remaining());
      var at := 0;
      while true
        invariant input.Valid() && at in {0, 1, 2}
        invariant at == 0 ==> goal == ParseSender(Val(), input.Remaining())
        invariant at != 0 ==> goal == ParseSenderValue(Val(), at, input.Remaining())
        decreases |input.Remaining()|, at == 0
      {
        if at == 0 {
          ParseSenderHead(Val(), input.Remaining());
          var tag, below := input.ReadTagWithCutoff(127);
          if below && tag / 8 == 1 && tag == 8 {
            at := 1;
          } else if below && tag / 8 == 2 && tag == 16 {
            at := 2;
          } else {
            if tag == 0 || tag % 8 == 4 { return true; }
            var skipped := input.Skip(tag);
            if !skipped { return false; }
          }
        } else if at == 1 {
          var read, v := input.ReadUInt32();
          if !read { return false; }
          typeId := Some(v);
          ghost var before := input.Remaining();
          var expected := input.ExpectTag(16);
          if expected {
            assert before == [16] + input.Remaining();
            ReadTagByte(16, input.Remaining());
            ParseSenderHead(Val(), before);
          }
          at := if expected then 2 else 0;
        } else {
          var read, v := input.ReadUInt64();
          if !read { return false; }
          instanceId := Some(v);
          var end := input.ExpectAtEnd();
          if end {
            ParseSenderHead(Val(), []);
            return true;
          }
          at := 0;
        }
      }
    }

    method SerializeWithCachedSizes(output: CodedOutputStream)
      modifies output
      ensures output.out == old(output.out) + SerializeSender(Val())
    {
      hide NumberField;
      if typeId.Some? {
        output.Write(NumberField(8, typeId.value));
      }
      if instanceId.Some? {
        output.Write(NumberField(16, instanceId.value));
      }
    }

    method SerializeWithCachedSizesToArray(a: array<Byte>, target: nat) returns (next: nat)
      requires target + |SerializeSender(Val())| <= a.Length
      modifies a
      ensures next == target + |SerializeSender(Val())|
      ensures a[..next] == old(a[..target]) + SerializeSender(Val())
      ensures a[next..] == old(a[next..])
    {
      hide NumberField;
      ghost var pre, post := a[..target], a[target + |SerializeSender(Val())|..];
      next := target;
      if typeId.Some? {
        next := WriteToArray(a, next, NumberField(8, typeId.value));
      }
      assert a[..next] == pre + TypeIdField(Val()) && a[next + |InstanceIdField(Val())|..] == post;
      if instanceId.Some? {
        next := WriteToArray(a, next, NumberField(16, instanceId.value));
      }
      assert a[..next] == pre + TypeIdField(Val()) + InstanceIdField(Val());
    }

    method ByteSize() returns (total: nat)
      modifies `cachedSize
      ensures total == cachedSize == |SerializeSender(Val())|
    {
      total := 0;
      if typeId.Some? || instanceId.Some? {
        if typeId.Some? {
          VarintSizeIsLength(typeId.value);
          total := total + 1 + VarintSize(typeId.value);
        }
        if instanceId.Some? {
          VarintSizeIsLength(instanceId.value);
          total := total + 1 + VarintSize(instanceId.value);
        }
      }
      cachedSize := total;
    }

    method MergeFrom(from: SenderIdMessage)
      requires from != this
      modifies `typeId, `instanceId
      ensures Val() == MergeSender(old(Val()), from.Val())
    {
      if from.typeId.Some? { typeId := from.typeId; }
      if from.instanceId.Some? { instanceId := from.instanceId; }
    }

    predicate IsInitialized()
      reads this
      ensures IsInitialized() == SenderInitialized(Val())
    {
      typeId.Some? && instanceId.Some?
    }
  }

  class StateBroadcastMessage {
    var zmqPubPort: Option<U32>
    var zmqRepPort: Option<U32>
    var senderId: SenderIdMessage?
    var senderName: Option<seq<Byte>>
    var version: Option<U32>
    var lifecycleState: Option<U32>
    var additionalLifecycleInfos: Option<U32>
    var additionalStateInfos: Option<seq<Byte>>
    var multicastIdentifier: Option<U32>

    ghost function Repr(): set<object>
      reads this
    {
      if senderId == null then {this} else {this, senderId}
    }

    ghost function Val(): Broadcast
      reads this, senderId
    {
      Broadcast(zmqPubPort, zmqRepPort, if senderId == null then None else Some(senderId.Val()), senderName, version,
                lifecycleState, additionalLifecycleInfos, additionalStateInfos, multicastIdentifier)
    }

    constructor ()
      ensures Val() == EMPTY_BROADCAST && fresh(Repr())
    {
      zmqPubPort, zmqRepPort, senderId, senderName, version := None, None, null, None, None;
      lifecycleState, additionalLifecycleInfos, additionalStateInfos, multicastIdentifier := None, None, None, None;
    }

    /** The nested message, created when it is not there yet. */
    method MutableSenderId() returns (s: SenderIdMessage)
      modifies `senderId
      ensures s == senderId && fresh(Repr() - old(Repr()))
      ensures old(senderId) != null ==> s == old(senderId)
      ensures old(senderId) == null ==> fresh(s) && s.Val() == EMPTY_SENDER
    {
      if senderId == null {
        senderId := new SenderIdMessage();
      }
      s := senderId;
    }

    /** What follows the label parse_k up to the next expected tag: the value of field k. */
    method ReadValue(k: int, input: CodedInputStream) returns (ok: bool)
      requires input.Valid() && 1 <= k <= LAST_FIELD
      modifies Repr(), input
      ensures input.Valid() && fresh(Repr() - old(Repr()))
      ensures match ReadField(old(Val()), k, old(input.Remaining()))
              case Broken(m) => !ok && Val() == m
              case Taken(m, rest) => ok && Val() == m && input.Remaining() == rest
    {
      if k == 3 {
        ok := ReadSenderMessage(input);
      } else if k == 4 {
        var name;
        ok, name := input.ReadString(TextIn(senderName));
        senderName := Some(name);
      } else if k == 8 {
        var infos;
        ok, infos := input.ReadString(TextIn(additionalStateInfos));
        additionalStateInfos := Some(infos);
      } else {
        var v;
        ok, v := input.ReadUInt32();
        if ok {
          match k {
            case 1 => zmqPubPort := Some(v);
            case 2 => zmqRepPort := Some(v);
            case 5 => version := Some(v);
            case 6 => lifecycleState := Some(v);
            case 7 => additionalLifecycleInfos := Some(v);
            case _ => multicastIdentifier := Some(v);
          }
        }
      }
    }

    /** Parses the nested message inside its length limit; it has to stop where the limit is. */
    method ReadSenderMessage(input: CodedInputStream) returns (ok: bool)
      requires input.Valid()
      modifies Repr(), input
      ensures input.Valid() && fresh(Repr() - old(Repr()))
      ensures match ReadField(old(Val()), 3, old(input.Remaining()))
              case Broken(m) => !ok && Val() == m
              case Taken(m, rest) => ok && Val() == m && input.Remaining() == rest
    {
      var s := MutableSenderId();
      var oldLimit;
      ok, oldLimit := input.PushLimit();
      if ok {
        ok := s.MergePartialFromCodedStream(input);
        if ok && input.legitimateEnd {
          input.PopLimit(oldLimit);
        } else {
          ok := false;
        }
      }
    }

    /** The parse loop with its fast path: at is 0 at the head of the for loop and k at the label of field k. */
    method MergePartialFromCodedStream(input: CodedInputStream) returns (ok: bool)
      requires input.Valid()
      modifies Repr(), input
      ensures input.Valid() && fresh(Repr() - old(Repr()))
      ensures match Parse(old(Val()), old(input.Remaining()))
              case Failed(m) => !ok && Val() == m
              case Done(m, atEnd) => ok && Val() == m && input.legitimateEnd == atEnd
    {
      hide Parse, ReadField, ReadTag, SkipField;
      ghost var goal := Parse(Val(), input.Remaining());
      var at := 0;
      while true
        invariant input.Valid() && 0 <= at <= LAST_FIELD && fresh(Repr() - old(Repr()))
        invariant goal == if at == 0 then Parse(Val(), input.Remaining()) else ParseValue(Val(), at, input.Remaining())
        decreases |input.Remaining()|, at == 0
      {
        if at == 0 {
          ParseHead(Val(), input.Remaining());
          var tag, below := input.ReadTagWithCutoff(127);
          var k := tag / 8;
          if below && 1 <= k <= LAST_FIELD && tag == TagOf(k) {
            at := k;
          } else {
            if tag == 0 || tag % 8 == 4 { return true; }
            var skipped := input.Skip(tag);
            if !skipped { return false; }
          }
        } else {
          var read := ReadValue(at, input);
          if !read { return false; }
          if at < LAST_FIELD {
            ghost var before := input.Remaining();
            var expected := input.ExpectTag(TagOf(at + 1));
            if expected {
              ExpectedTagIsNextTag(Val(), at + 1, before);
              at := at + 1;
            } else {
              at := 0;
            }
          } else {
            var end := input.ExpectAtEnd();
            if end {
              ParseHead(Val(), []);
              return true;
            }
            at := 0;
          }
        }
      }
    }

    method ParseFromArray(bytes: seq<Byte>) returns (ok: bool)
      modifies Repr()
      ensures fresh(Repr() - old(Repr()))
      ensures ok == Accepted(bytes).Some?
      ensures Val() == Received(bytes)
    {
      Clear();
      var input := new CodedInputStream(bytes);
      ok := MergePartialFromCodedStream(input);
      if ok {
        var initialized := IsInitialized();
        ok := initialized && input.legitimateEnd;
      }
    }

    method Clear()
      modifies this
      ensures Val() == EMPTY_BROADCAST && fresh(Repr() - old(Repr()))
    {
      zmqPubPort, zmqRepPort, senderId, senderName, version := None, None, null, None, None;
      lifecycleState, additionalLifecycleInfos, additionalStateInfos, multicastIdentifier := None, None, None, None;
    }

    predicate IsInitialized()
      reads this, senderId
      ensures IsInitialized() == Initialized(Val())
    {
      && zmqPubPort.Some? && zmqRepPort.Some? && senderId != null && senderName.Some?
      && version.Some? && lifecycleState.Some? && multicastIdentifier.Some?
      && senderId.IsInitialized()
    }

    method MergeFrom(from: StateBroadcastMessage)
      requires from != this && (from.senderId == null || from.senderId != senderId)
      modifies Repr()
      ensures Val() == Merge(old(Val()), old(from.Val())) && fresh(Repr() - old(Repr()))
      ensures from.Val() == old(from.Val())
    {
      zmqPubPort := Later(zmqPubPort, from.zmqPubPort);
      zmqRepPort := Later(zmqRepPort, from.zmqRepPort);
      if from.senderId != null {
        var s := MutableSenderId();
        s.MergeFrom(from.senderId);
      }
      senderName := Later(senderName, from.senderName);
      version := Later(version, from.version);
      lifecycleState := Later(lifecycleState, from.lifecycleState);
      additionalLifecycleInfos := Later(additionalLifecycleInfos, from.additionalLifecycleInfos);
      additionalStateInfos := Later(additionalStateInfos, from.additionalStateInfos);
      multicastIdentifier := Later(multicastIdentifier, from.multicastIdentifier);
    }

    /** The size of the serialized message; the nested size is cached for the writers. */
    method ByteSize() returns (total: nat)
      requires Encodable(Val())
      modifies if senderId == null then {} else {senderId}
      ensures Val() == old(Val()) && SizeCached() && total == |Serialize(Val())|
    {
      ghost var m := Val();
      SerializedSize(m);
      hide VarintSize, Serialize, SerializeSender, RecordSize, NumberSize, BytesSize;
      var size: int := 0;
      if (zmqPubPort.Some? || zmqRepPort.Some? || senderId != null || senderName.Some? || version.Some?
          || lifecycleState.Some? || additionalLifecycleInfos.Some? || additionalStateInfos.Some?) {
        size := NumberSize(zmqPubPort) + NumberSize(zmqRepPort);
        if senderId != null {
          var nested := senderId.ByteSize();
          size := size + RecordSize(nested);
        }
        size := size + BytesSize(senderName) + NumberSize(version) + NumberSize(lifecycleState)
        + NumberSize(additionalLifecycleInfos) + BytesSize(additionalStateInfos);
      }
      total := size + NumberSize(multicastIdentifier);
    }

    ghost predicate SizeCached()
      reads this, senderId
    {
      senderId != null ==> senderId.cachedSize == |SerializeSender(senderId.Val())|
    }

    /** The bytes of a field other than the nested message: nothing when its has-bit is not set. */
    function Output(k: int): (bs: seq<Byte>)
      requires 1 <= k <= LAST_FIELD && k != 3
      reads this, senderId
      ensures bs == FieldBytes(Val(), k)
    {
      match k
      case 1 => if zmqPubPort.Some? then NumberField(8, zmqPubPort.value) else []
      case 2 => if zmqRepPort.Some? then NumberField(16, zmqRepPort.value) else []
      case 4 => if senderName.Some? then [34] + EncodeRecord(senderName.value) else []
      case 5 => if version.Some? then NumberField(40, version.value) else []
      case 6 => if lifecycleState.Some? then NumberField(48, lifecycleState.value) else []
      case 7 => if additionalLifecycleInfos.Some? then NumberField(56, additionalLifecycleInfos.value) else []
      case 8 => if additionalStateInfos.Some? then [66] + EncodeRecord(additionalStateInfos.value) else []
      case _ => if multicastIdentifier.Some? then NumberField(72, multicastIdentifier.value) else []
    }

    /** The stream writer of one field; the nested message gets its cached size as length prefix. */
    method WriteField(k: int, output: CodedOutputStream)
      requires 1 <= k <= LAST_FIELD && SizeCached()
      modifies output
      ensures output.out == old(output.out) + FieldBytes(Val(), k)
    {
      SenderFieldBytes(Val());
      hide Output, EncodeVarint, SerializeSender, FieldBytes;
      if k != 3 {
        output.Write(Output(k));
      } else if senderId != null {
        ghost var nested := SerializeSender(senderId.Val());
        output.Write([26] + EncodeVarint(senderId.cachedSize));
        senderId.SerializeWithCachedSizes(output);
      }
    }

    /** The stream writer: all fields in field order. */
    method SerializeWithCachedSizes(output: CodedOutputStream)
      requires SizeCached()
      modifies output
      ensures output.out == old(output.out) + Serialize(Val())
    {
      hide FieldBytes, SerializeFrom, Val;
      SerializeUnfold(Val());
      ghost var goal := output.out + Serialize(Val());
      for k := 1 to LAST_FIELD + 1
        invariant output.out + SerializeFrom(Val(), k) == goal
      {
        ghost var before := output.out;
        WriteField(k, output);
        assert before + (FieldBytes(Val(), k) + SerializeFrom(Val(), k + 1)) == output.out + SerializeFrom(Val(), k + 1);
      }
      assert output.out + [] == output.out;
    }

    /** The array writer of one field. */
    method WriteFieldToArray(k: int, a: array<Byte>, target: nat) returns (next: nat)
      requires 1 <= k <= LAST_FIELD && SizeCached()
      requires target + |FieldBytes(Val(), k)| <= a.Length
      modifies a
      ensures next == target + |FieldBytes(Val(), k)|
      ensures a[..next] == old(a[..target]) + FieldBytes(Val(), k)
      ensures a[next..] == old(a[next..])
    {
      SenderFieldBytes(Val());
      hide Output, EncodeVarint, SerializeSender, FieldBytes;
      next := target;
      if k != 3 {
        next := WriteToArray(a, target, Output(k));
      } else if senderId != null {
        ghost var pre, nested := a[..target], SerializeSender(senderId.Val());
        next := WriteToArray(a, target, [26] + EncodeVarint(senderId.cachedSize));
        ghost var end := next + |nested|;
        assert a[end..] == old(a[end..]);
        next := senderId.SerializeWithCachedSizesToArray(a, next);
        assert a[..next] == pre + (([26] + EncodeVarint(|nested|)) + nested);
      }
    }

    /** The array writer fills exactly the bytes of the message and leaves the rest of the array. */
    method SerializeWithCachedSizesToArray(a: array<Byte>, target: nat) returns (next: nat)
      requires SizeCached()
      requires target + |Serialize(Val())| <= a.Length
      modifies a
      ensures next == target + |Serialize(Val())|
      ensures a[..next] == old(a[..target]) + Serialize(Val())
      ensures a[next..] == old(a[next..])
    {
      hide FieldBytes, SerializeFrom, Val;
      SerializeUnfold(Val());
      ghost var goal := a[..target] + Serialize(Val());
      next := target;
      for k := 1 to LAST_FIELD + 1
        invariant target <= next <= |goal| && a[..next] + SerializeFrom(Val(), k) == goal
        invariant a[|goal|..] == old(a[|goal|..])
      {
        ghost var pre, post, at := a[..next], a[|goal|..], next;
        assert goal == (pre + FieldBytes(Val(), k)) + SerializeFrom(Val(), k + 1);
        next := WriteFieldToArray(k, a, next);
        assert a[at + |FieldBytes(Val(), k)|..] == a[next..];
        assert a[|goal|..] == post;
      }
      assert a[..next] + [] == a[..next];
    }

    /** Sizes first, then one array of exactly that size. */
    method SerializeToString() returns (s: seq<Byte>)
      requires Encodable(Val())
      modifies if senderId == null then {} else {senderId}
      ensures Val() == old(Val()) && s == Serialize(Val())
    {
      hide Val, Serialize, SizeCached, SenderIdMessage.Val;
      ghost var m := Val();
      var size := ByteSize();
      var a := new Byte[size];
      ghost var before := a[..0];
      var end := SerializeWithCachedSizesToArray(a, 0);
      assert Val() == m && before == [] && a[..end] == before + Serialize(m);
      s := a[..];
    }
  }

  lemma SenderFieldBytes(m: Broadcast)
    ensures FieldBytes(m, 3)
         == if m.senderId.Some?
            then [26] + EncodeVarint(|SerializeSender(m.senderId.value)|) + SerializeSender(m.senderId.value)
            else []
  {
    hide EncodeVarint, SerializeSender;
    if m.senderId.Some? {
      var nested := SerializeSender(m.senderId.value);
      assert [26] + EncodeVarint(|nested|) + nested == [26] + (EncodeVarint(|nested|) + nested);
    }
  }

  /** Behind its tag the nested message is read as exactly its own bytes, and what follows it is left. */
  lemma SenderRecordReadsBack(m: Broadcast, rest: seq<Byte>)
    requires m.senderId.Some?
    ensures var s := FieldBytes(m, 3) + rest;
            && ReadTag(s).Tag? && ReadTag(s).tag == TagOf(3)
            && ReadRecord(ReadTag(s).rest) == Got(SerializeSender(m.senderId.value), rest)
            && ReadLimited(ReadTag(s).rest) == Got(SerializeSender(m.senderId.value), rest)
  {
    var nested := SerializeSender(m.senderId.value);
    SenderByteSizeIsLength(m.senderId.value);
    RecordRoundTrip(nested, rest);
    RecordIsLimited(EncodeRecord(nested) + rest);
    assert FieldBytes(m, 3) + rest == [TagOf(3)] + (EncodeRecord(nested) + rest);
    ReadTagByte(TagOf(3), EncodeRecord(nested) + rest);
  }

  /** Taking the expected tag is what the head of the loop would have done. */
  lemma ExpectedTagIsNextTag(m: Broadcast, k: int, s: seq<Byte>)
    requires 1 <= k <= LAST_FIELD && s != [] && s[0] == TagOf(k)
    ensures Parse(m, s) == ParseValue(m, k, s[1..])
  {
    assert s == [TagOf(k)] + s[1..];
    ReadTagByte(TagOf(k), s[1..]);
  }
}
