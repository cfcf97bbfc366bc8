/** Message types: short byte strings that name topics and match by prefix. */
module MessageTypes {
  import opened Types

  const MESSAGE_ID_BYTES := 32

  /** The big-endian form of the low bytes of a number. */
  function BigEndian(v: nat, bytes: nat): (r: seq<Byte>)
    ensures |r| == bytes
  {
    if bytes == 0 then [] else BigEndian(v / 256, bytes - 1) + [v % 256]
  }

  /** The number a big-endian form stands for. */
  function Value(bytes: seq<Byte>): nat {
    if bytes == [] then 0 else Value(bytes[..|bytes| - 1]) * 256 + bytes[|bytes| - 1]
  }

  function Power(bytes: nat): (r: nat)
    ensures r > 0
  {
    if bytes == 0 then 1 else 256 * Power(bytes - 1)
  }

  /** Decoding gives the number back if it fits. */
  lemma {:induction false} ValueOfBigEndian(v: nat, bytes: nat)
    requires v < Power(bytes)
    ensures Value(BigEndian(v, bytes)) == v
  {
    if bytes > 0 {
      ValueOfBigEndian(v / 256, bytes - 1);
      var high := BigEndian(v / 256, bytes - 1);
      assert (high + [v % 256])[..bytes - 1] == high;
    }
  }

  lemma {:induction false} ValueAppend(a: seq<Byte>, b: seq<Byte>)
    ensures Value(a + b) == Value(a) * Power(|b|) + Value(b)
  {
    if b == [] {
      assert a + b == a;
    } else {
      var n := |b| - 1;
      ValueAppend(a, b[..n]);
      assert (a + b)[..|a| + n] == a + b[..n];
      assert Value(a) * Power(|b|) == Value(a) * Power(n) * 256;
    }
  }

  /** A form of a given length has one reading. */
  lemma {:induction false} ValueIsInjective(a: seq<Byte>, b: seq<Byte>)
    requires |a| == |b| && Value(a) == Value(b)
    ensures a == b
  {
    if a != [] {
      var n := |a| - 1;
      ValueIsInjective(a[..n], b[..n]);
      assert a == a[..n] + [a[n]] && b == b[..n] + [b[n]];
    }
  }

  /** The high half of a number's bytes comes first. */
  lemma HalvesOf(v: nat, half: nat, p: nat)
    requires (half == 1 && p == 256 && v < TWO16) || (half == 2 && p == TWO16 && v < TWO32)
             || (half == 4 && p == TWO32 && v < TWO64)
    ensures BigEndian(v, 2 * half) == BigEndian(v / p, half) + BigEndian(v % p, half)
  {
    Powers();
    hide BigEndian, Power, Value;
    var high, low := BigEndian(v / p, half), BigEndian(v % p, half);
    ValueOfBigEndian(v, 2 * half);
    ValueOfBigEndian(v / p, half);
    ValueOfBigEndian(v % p, half);
    ValueAppend(high, low);
    ValueIsInjective(BigEndian(v, 2 * half), high + low);
  }

  lemma Powers()
    ensures Power(1) == 256 && Power(2) == TWO16 && Power(4) == TWO32 && Power(8) == TWO64
  {
    assert Power(3) == 256 * Power(2) && Power(5) == 256 * Power(4) && Power(7) == 256 * Power(6);
  }

  /** Bytes are appended one by one; the first one that makes the match too long is appended, but ends it. */
  function Appended(m: seq<Byte>, bytes: seq<Byte>): (seq<Byte>, bool)
    decreases |bytes|
  {
    if bytes == [] then (m, true)
    else if |m| + 1 >= MESSAGE_ID_BYTES then (m + [bytes[0]], false)
    else Appended(m + [bytes[0]], bytes[1..])
  }

  /** All bytes are appended exactly when the result stays under 32 bytes. Otherwise the match is left with those that
      fill it to 32, at least one. */
  lemma {:induction false} AppendedResult(m: seq<Byte>, bytes: seq<Byte>)
    requires bytes != []
    ensures var (r, ok) := Appended(m, bytes);
            && (ok <==> |m| + |bytes| < 32)
            && (ok ==> r == m + bytes)
            && (!ok ==> var n := if |m| < 32 then 32 - |m| else 1;
                        n <= |bytes| && r == m + bytes[..n])
    decreases |bytes|
  {
    if |m| + 1 >= MESSAGE_ID_BYTES {
      assert bytes[..1] == [bytes[0]];
    } else if |bytes| == 1 {
      assert m + [bytes[0]] == m + bytes;
    } else {
      var m' := m + [bytes[0]];
      AppendedResult(m', bytes[1..]);
      assert m' + bytes[1..] == m + bytes;
      var n := MESSAGE_ID_BYTES - |m|;
      if n <= |bytes| {
        assert m' + bytes[1..][..n - 1] == m + bytes[..n];
      }
    }
  }

  lemma {:induction false} AppendedTwice(m: seq<Byte>, a: seq<Byte>, b: seq<Byte>)
    ensures Appended(m, a + b) == if Appended(m, a).1 then Appended(Appended(m, a).0, b) else Appended(m, a)
    decreases |a|
  {
    if a == [] {
      assert a + b == b;
    } else {
      assert (a + b)[1..] == a[1..] + b;
      if |m| + 1 < MESSAGE_ID_BYTES { AppendedTwice(m + [a[0]], a[1..], b); }
    }
  }

  // ---- Text ----

  function Digit(d: nat): char
    requires d < 10
  {
    '0' + d as char
  }

  function Decimal(n: nat): string {
    if n < 10 then [Digit(n)] else Decimal(n / 10) + [Digit(n % 10)]
  }

  function Dotted(m: seq<Byte>): string {
    if m == [] then "" else Dotted(m[..|m| - 1]) + Decimal(m[|m| - 1]) + "."
  }

  function Text(m: seq<Byte>): string
    requires m != []
  {
    Dotted(m)[..|Dotted(m)| - 1] + "|" + Decimal(|m|)
  }

  /** Reads numbers separated by dots, up to the bar. */
  function Numbers(text: string, current: nat): seq<nat> {
    if text == "" then []
    else if text[0] == '|' then [current]
    else if text[0] == '.' then [current] + Numbers(text[1..], 0)
    else if '0' <= text[0] <= '9' then Numbers(text[1..], current * 10 + (text[0] - '0') as int)
    else []
  }

  lemma {:induction false} NumbersOfDecimal(n: nat, rest: string)
    ensures Numbers(Decimal(n) + rest, 0) == Numbers(rest, n)
  {
    if n < 10 {
      assert ([Digit(n)] + rest)[1..] == rest;
    } else {
      var d := [Digit(n % 10)];
      NumbersOfDecimal(n / 10, d + rest);
      assert Decimal(n) + rest == Decimal(n / 10) + (d + rest);
      assert (d + rest)[1..] == rest;
      assert (d[0] - '0') as int == n % 10;
    }
  }

  lemma DottedBack(m: seq<Byte>, b: Byte)
    ensures Dotted(m + [b]) == Dotted(m) + (Decimal(b) + ".")
  {
    assert (m + [b])[..|m|] == m;
    hide Dotted, Decimal;
    assert Dotted(m) + Decimal(b) + "." == Dotted(m) + (Decimal(b) + ".");
  }

  lemma {:induction false} DottedFront(m: seq<Byte>)
    requires m != []
    ensures Dotted(m) == Decimal(m[0]) + "." + Dotted(m[1..])
  {
    hide Dotted, Decimal;
    if |m| == 1 {
      DottedBack([], m[0]);
      EmptyDotted();
      assert [] + [m[0]] == m && m[1..] == [];
    } else {
      var n := |m| - 1;
      DottedFront(m[..n]);
      assert m[..n][1..] == m[1..n] && m[1..n] + [m[n]] == m[1..] && m[..n] + [m[n]] == m;
      DottedBack(m[..n], m[n]);
      DottedBack(m[1..n], m[n]);
    }
  }

  lemma NumbersAtSeparator(n: nat, rest: string)
    ensures Numbers("." + rest, n) == [n] + Numbers(rest, 0) && Numbers("|" + rest, n) == [n]
  {
    assert ("." + rest)[1..] == rest;
  }

  /** The text without its last dot, after a first number. */
  lemma CutLastDot(first: string, rest: string, tail: string)
    ensures rest == "" ==> (first + "." + rest)[..|first + "." + rest| - 1] + "|" + tail == first + ("|" + tail)
    ensures rest != "" ==> (first + "." + rest)[..|first + "." + rest| - 1] + "|" + tail
                           == first + ("." + (rest[..|rest| - 1] + "|" + tail))
  {
  }

  lemma {:induction false} NumbersOfDotted(m: seq<Byte>, tail: string)
    requires m != []
    ensures Dotted(m) != ""
    ensures Numbers(Dotted(m)[..|Dotted(m)| - 1] + "|" + tail, 0) == m
  {
    hide Dotted, Decimal, Numbers;
    DottedFront(m);
    CutLastDot(Decimal(m[0]), Dotted(m[1..]), tail);
    if |m| == 1 {
      EmptyDotted();
      assert m[1..] == [];
      NumbersOfDecimal(m[0], "|" + tail);
      NumbersAtSeparator(m[0], tail);
    } else {
      NumbersOfDotted(m[1..], tail);
      var later := Dotted(m[1..])[..|Dotted(m[1..])| - 1] + "|" + tail;
      NumbersOfDecimal(m[0], "." + later);
      NumbersAtSeparator(m[0], later);
    }
  }

  lemma EmptyDotted()
    ensures Dotted([]) == ""
  {
  }

  /** Reads the number behind the bar. */
  function LengthIn(text: string): seq<nat> {
    if text == "" then [] else if text[0] == '|' then Numbers(text[1..] + "|", 0) else LengthIn(text[1..])
  }

  predicate BarFree(text: string) {
    forall i :: 0 <= i < |text| ==> text[i] != '|'
  }

  lemma {:induction false} DecimalIsBarFree(n: nat)
    ensures BarFree(Decimal(n))
  {
    if n >= 10 {
      DecimalIsBarFree(n / 10);
    }
  }

  lemma {:induction false} DottedIsBarFree(m: seq<Byte>)
    ensures BarFree(Dotted(m))
  {
    hide Decimal;
    if m != [] {
      DottedIsBarFree(m[..|m| - 1]);
      DecimalIsBarFree(m[|m| - 1]);
    }
  }

  lemma {:induction false} LengthBehindBar(before: string, tail: string)
    requires BarFree(before)
    ensures LengthIn(before + "|" + tail) == Numbers(tail + "|", 0)
  {
    hide Numbers;
    var text := before + "|" + tail;
    if before == "" {
      assert text[1..] == tail;
    } else {
      LengthBehindBar(before[1..], tail);
      assert text[1..] == before[1..] + "|" + tail && text[0] == before[0];
    }
  }

  lemma LengthOfText(m: seq<Byte>)
    requires m != []
    ensures LengthIn(Text(m)) == [|m|]
  {
    DottedIsBarFree(m);
    NumbersOfDotted(m, "");
    hide Numbers, Dotted, Decimal;
    LengthBehindBar(Dotted(m)[..|Dotted(m)| - 1], Decimal(|m|));
    NumbersOfDecimal(|m|, "|" + "");
    NumbersAtSeparator(|m|, "");
    assert Decimal(|m|) + ("|" + "") == Decimal(|m|) + "|";
  }

  /** The text of a match gives the match and its length back, so different matches have different texts. */
  lemma TextIsInjective(m: seq<Byte>, n: seq<Byte>)
    requires m != [] && n != []
    ensures Numbers(Text(m), 0) == m && LengthIn(Text(m)) == [|m|]
    ensures Text(m) == Text(n) ==> m == n
  {
    LengthOfText(m);
    NumbersOfDotted(m, Decimal(|m|));
    NumbersOfDotted(n, Decimal(|n|));
    hide Numbers, Dotted;
    var a, b: seq<nat> := m, n;
    assert Text(m) == Text(n) ==> a == b;
  }

  /** The first i bytes replaced by those of the prefix. */
  function Overridden(prefix: seq<Byte>, m: seq<Byte>, i: nat): (r: seq<Byte>)
    requires i <= |prefix| <= |m|
    ensures |r| == |m|
  {
    prefix[..i] + m[i..]
  }

  lemma OverrideByte(prefix: seq<Byte>, m: seq<Byte>, i: nat)
    requires i < |prefix| <= |m|
    ensures Overridden(prefix, m, i)[i := prefix[i]] == Overridden(prefix, m, i + 1)
  {
  }

  lemma OverrideEnds(prefix: seq<Byte>, m: seq<Byte>)
    requires |prefix| <= |m|
    ensures Overridden(prefix, m, 0) == m && Overridden(prefix, m, |prefix|) == prefix + m[|prefix|..]
  {
  }

  class MessageType {
    var match_: seq<Byte>

    constructor Empty()
      ensures match_ == []
    {
      match_ := [];
    }

    /** Fails when the bytes are too long. */
    static method FromBytes(bytes: seq<Byte>) returns (r: Option<MessageType>)
      ensures r.Some? <==> |bytes| < 32
      ensures r.Some? ==> fresh(r.value) && r.value.match_ == bytes
    {
      var m := new MessageType.Empty();
      m.match_ := bytes;
      r := if |m.match_| < MESSAGE_ID_BYTES then Some(m) else None;
    }

    /** The size is checked after the byte was appended. */
    method AppendMatch8(v: Byte) returns (ok: bool)
      modifies this
      ensures (match_, ok) == Appended(old(match_), [v])
    {
      match_ := match_ + [v];
      ok := |match_| < MESSAGE_ID_BYTES;
    }

    method AppendMatch16(v: U16) returns (ok: bool)
      modifies this
      ensures (match_, ok) == Appended(old(match_), BigEndian(v, 2))
    {
      HalvesOf(v, 1, 256);
      OneByte(v / 256);
      OneByte(v % 256);
      AppendedTwice(match_, [v / 256], [v % 256]);
      hide Appended, BigEndian;
      ok := AppendMatch8(v / 256);
      if !ok { return; }
      ok := AppendMatch8(v % 256);
    }

    method AppendMatch32(v: U32) returns (ok: bool)
      modifies this
      ensures (match_, ok) == Appended(old(match_), BigEndian(v, 4))
    {
      HalvesOf(v, 2, TWO16);
      AppendedTwice(match_, BigEndian(v / TWO16, 2), BigEndian(v % TWO16, 2));
      hide Appended, BigEndian;
      ok := AppendMatch16(v / TWO16);
      if !ok { return; }
      ok := AppendMatch16(v % TWO16);
    }

    method AppendMatch64(v: U64) returns (ok: bool)
      modifies this
      ensures (match_, ok) == Appended(old(match_), BigEndian(v, 8))
    {
      HalvesOf(v, 4, TWO32);
      AppendedTwice(match_, BigEndian(v / TWO32, 4), BigEndian(v % TWO32, 4));
      hide Appended, BigEndian;
      ok := AppendMatch32(v / TWO32);
      if !ok { return; }
      ok := AppendMatch32(v % TWO32);
    }

    /** Cuts the match, or fills it up with zeros. The size is not checked. */
    method TrimToLength(length: Byte)
      modifies this
      ensures |match_| == length
      ensures forall i :: 0 <= i < length ==> match_[i] == if i < |old(match_)| then old(match_)[i] else 0
    {
      var m := match_;
      match_ := seq(length, i requires 0 <= i < length => if i < |m| then m[i] else 0);
    }

    /** Fails when the prefix is longer. Otherwise the result starts with the prefix and keeps the rest. */
    method OverridePrefixWith(other: MessageType) returns (ok: bool)
      modifies this
      ensures ok <==> |old(other.match_)| <= |old(match_)|
      ensures match_ == if ok then old(other.match_) + old(match_)[|old(other.match_)|..] else old(match_)
    {
      ok := |other.match_| <= |match_|;
      if !ok { return; }
      var prefix := other.match_;
      OverrideEnds(prefix, match_);
      hide Overridden;
      var i := 0;
      while i < |prefix|
        invariant 0 <= i <= |prefix| && match_ == Overridden(prefix, old(match_), i)
      {
        OverrideByte(prefix, old(match_), i);
        match_ := match_[i := prefix[i]];
        i := i + 1;
      }
    }

    /** This topic contains the messages whose type it is a prefix of. */
    method ContainsTopic(b: MessageType) returns (r: bool)
      ensures r <==> match_ <= b.match_
    {
      if |match_| > |b.match_| { return false; }
      var i := 0;
      while i < |match_|
        invariant 0 <= i <= |match_| && match_[..i] == b.match_[..i]
      {
        if match_[i] != b.match_[i] { return false; }
        i := i + 1;
      }
      r := true;
    }

    method ToString() returns (text: string)
      requires match_ != []
      ensures text == Text(match_)
    {
      text := "";
      var i := 0;
      while i < |match_|
        invariant 0 <= i <= |match_| && text == Dotted(match_[..i]) && (i > 0 ==> text != "")
      {
        assert match_[..i + 1][..i] == match_[..i];
        text := text + Decimal(match_[i]) + ".";
        i := i + 1;
      }
      assert match_[..i] == match_;
      text := text[..|text| - 1];
      text := text + "|";
      text := text + Decimal(|match_|);
    }
  }

  lemma OneByte(v: Byte)
    ensures BigEndian(v, 1) == [v]
  {
    assert BigEndian(v / 256, 0) == [];
  }

  /** Appending a 16, 32 or 64-bit number that fits leaves exactly its big-endian form, which decodes to the number. */
  lemma AppendedNumber(m: seq<Byte>, v: nat, bytes: nat)
    requires (bytes == 2 && v < TWO16) || (bytes == 4 && v < TWO32) || (bytes == 8 && v < TWO64)
    ensures var (r, ok) := Appended(m, BigEndian(v, bytes));
            && (ok <==> |m| + bytes < 32)
            && (ok ==> |r| == |m| + bytes && r[..|m|] == m && Value(r[|m|..]) == v)
  {
    Powers();
    AppendedResult(m, BigEndian(v, bytes));
    ValueOfBigEndian(v, bytes);
    hide Appended, BigEndian, Value;
    assert (m + BigEndian(v, bytes))[|m|..] == BigEndian(v, bytes);
  }
}
