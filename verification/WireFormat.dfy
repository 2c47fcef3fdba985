/** The wire format, byte by byte: which bytes stand for which field, which unknown fields are
    stepped over and how far, and what is refused. */
module WireFormat {
  import opened Bits
  import opened Varint
  import opened Codec
  import opened Wrappers

  function OrNothing(present: bool, bytes: seq<byte>): seq<byte> { if present then bytes else [] }

  lemma OneByte(v: nat)
    requires v < 128
    ensures VarintBytes(v) == [v]
  {
  }

  /** The numbers a varint's bytes spell: least significant seven bits first, the high bit
      on every byte but the last. */
  lemma TwoBytes(v: nat)
    requires 128 <= v < 16384
    ensures VarintBytes(v) == [128 + v % 128, v / 128]
  {
    OneByte(v / 128);
  }

  /** An encoded message, with the tag bytes spelt out. */
  lemma EncodingBytes(m: RpcMessage)
    ensures Encoding(m) ==
      OrNothing(m.id != 0, [8] + VarintBytes(m.id))
      + OrNothing(m.kind != 0, [16] + VarintBytes(m.kind))
      + OrNothing(m.service != [], [26] + VarintBytes(|m.service|) + m.service)
      + OrNothing(m.methodName != [], [34] + VarintBytes(|m.methodName|) + m.methodName)
      + OrNothing(m.payload != [], [42] + VarintBytes(|m.payload|) + m.payload)
      + OrNothing(m.status != 0, [48] + VarintBytes(if m.status >= 0 then m.status else m.status + TWO32))
      + OrNothing(m.error != [], [58] + VarintBytes(|m.error|) + m.error)
  {
    NumBytes(1, m.id);
    NumBytes(2, m.kind);
    TextBytes(3, m.service);
    TextBytes(4, m.methodName);
    TextBytes(5, m.payload);
    NumBytes(6, m.status % TWO32);
    TextBytes(7, m.error);
    StatusCast(m.status);
    hide VarintBytes, NumChunk, TextChunk, OrNothing, Tag;
    var v := if m.status >= 0 then m.status else m.status + TWO32;
    assert NumChunk(6, m.status % TWO32) == OrNothing(m.status != 0, [48] + VarintBytes(v));
  }

  lemma NumBytes(field: nat, v: nat)
    requires field < 16
    ensures NumChunk(field, v) == OrNothing(v != 0, [8 * field] + VarintBytes(v))
  {
    OneByte(8 * field);
  }

  lemma TextBytes(field: nat, text: seq<byte>)
    requires field < 15
    ensures TextChunk(field, text) == OrNothing(text != [], [8 * field + 2] + VarintBytes(|text|) + text)
  {
    OneByte(8 * field + 2);
  }

  lemma StatusCast(status: int32)
    ensures status % TWO32 == if status >= 0 then status else status + TWO32
    ensures status % TWO32 == 0 <==> status == 0
  {
  }

  // ----------------------------------------------------------------- the tag

  /** A tag's upper bits, cut to 32, are the field's number; its lower three the wire type. */
  predicate TagOf(tag: uint64, number: uint32, wire: nat) { (tag / 8) % TWO32 == number && tag % 8 == wire }

  lemma TagIs(field: nat, wire: nat) returns (tag: uint64, number: uint32)
    requires wire < 8 && 8 * field + wire < TWO64
    ensures tag == 8 * field + wire && number == field % TWO32 && TagOf(tag, number, wire)
  {
    tag, number := 8 * field + wire, field % TWO32;
    assert tag / 8 == field && tag % 8 == wire;
  }

  lemma FirstRecord(s: seq<byte>, x: RpcMessage)
    requires s != []
    ensures var p := ParseRecord(s);
      DecodeFrom(s, x) == if p.Bad? then None else DecodeFrom(s[p.used..], Apply(x, p.record))
  {
    hide ParseRecord, Apply;
  }

  lemma TagReads(tag: uint64, number: uint32, wire: nat, body: seq<byte>)
    requires TagOf(tag, number, wire)
    ensures var p := ParseBody(number, wire, body);
      ParseRecord(VarintBytes(tag) + body) == if p.Bad? then Bad else Good(p.record, |VarintBytes(tag)| + p.used)
  {
    ReadWritten(tag, body);
    hide Read, VarintBytes, ParseBody;
    assert (VarintBytes(tag) + body)[|VarintBytes(tag)|..] == body;
  }

  /** Decoding behind a tag, from what the record's body parses to. */
  lemma BehindTag(tag: uint64, number: uint32, wire: nat, body: seq<byte>, x: RpcMessage)
    requires TagOf(tag, number, wire)
    ensures var p := ParseBody(number, wire, body);
      DecodeFrom(VarintBytes(tag) + body, x) ==
        if p.Bad? then None else DecodeFrom(body[p.used..], Apply(x, p.record))
  {
    hide *;
    TagReads(tag, number, wire, body);
    var t, p := VarintBytes(tag), ParseBody(number, wire, body);
    FirstRecord(t + body, x);
    if p.Good? {
      assert (t + body)[|t| + p.used..] == body[p.used..];
    }
  }

  /** Field numbers are cut to 32 bits, so a number beyond them is taken for the field it
      leaves. */
  lemma FieldNumbersWrap(field: nat, other: nat, wire: nat, body: seq<byte>, x: RpcMessage)
    requires wire < 8 && 8 * field + wire < TWO64 && 8 * other + wire < TWO64
    requires field % TWO32 == other % TWO32
    ensures DecodeFrom(VarintBytes(8 * field + wire) + body, x) == DecodeFrom(VarintBytes(8 * other + wire) + body, x)
  {
    var a, n := TagIs(field, wire);
    var b, m := TagIs(other, wire);
    hide *;
    BehindTag(a, n, wire, body, x);
    BehindTag(b, m, wire, body, x);
  }

  // ------------------------------------------------------------- unknown fields

  /** `body` is one complete value of the wire type, as the encoder of a later schema writes
      it: a varint, eight bytes, a length and that many bytes, or four bytes. */
  ghost predicate WholeValue(wire: nat, body: seq<byte>)
  {
    || (wire == 0 && exists v: uint64 :: body == VarintBytes(v))
    || (wire == 1 && |body| == 8)
    || (wire == 2 && exists text: Text :: body == VarintBytes(|text|) + text)
    || (wire == 5 && |body| == 4)
  }

  lemma UnknownSaysNothing(x: RpcMessage)
    ensures Apply(x, Unknown) == x
  {
  }

  lemma UnknownParses(number: uint32, wire: nat, s: seq<byte>)
    requires number == 0 || number > 7
    ensures ParseBody(number, wire, s) ==
      if Skip(wire, s).None? then Bad else Good(Unknown, Skip(wire, s).value)
  {
    hide Skip, Read;
  }

  lemma WholeIsSkipped(wire: nat, body: seq<byte>, rest: seq<byte>)
    requires WholeValue(wire, body)
    ensures Skip(wire, body + rest) == Some(|body|)
  {
    hide VarintBytes, Read;
    if wire == 0 {
      var v: uint64 :| body == VarintBytes(v);
      ReadWritten(v, rest);
    } else if wire == 2 {
      var text: Text :| body == VarintBytes(|text|) + text;
      assert body + rest == VarintBytes(|text|) + (text + rest);
      ReadWritten(|text|, text + rest);
    }
  }

  /** A complete field of an unknown number is stepped over, exactly, wherever it stands. */
  lemma UnknownFieldIsSkipped(field: nat, wire: nat, body: seq<byte>, rest: seq<byte>, x: RpcMessage)
    requires wire < 8 && 8 * field + wire < TWO64 && (field % TWO32 == 0 || field % TWO32 > 7)
    requires WholeValue(wire, body)
    ensures DecodeFrom(VarintBytes(8 * field + wire) + (body + rest), x) == DecodeFrom(rest, x)
  {
    var tag, number := TagIs(field, wire);
    hide *;
    BehindTag(tag, number, wire, body + rest, x);
    UnknownSaysNothing(x);
    UnknownParses(number, wire, body + rest);
    WholeIsSkipped(wire, body, rest);
    assert (body + rest)[|body|..] == rest;
  }

  /** What no unknown field may be: of another wire type, or cut short. */
  predicate Broken(wire: nat, body: seq<byte>)
  {
    || wire == 3 || wire == 4 || wire > 5
    || (wire == 1 && |body| < 8) || (wire == 5 && |body| < 4)
    || (wire == 0 && forall i :: 0 <= i < |body| && i < 10 ==> body[i] >= 128)
  }

  lemma BrokenIsNotSkipped(wire: nat, body: seq<byte>)
    requires Broken(wire, body)
    ensures Skip(wire, body) == None
  {
    if wire == 0 {
      assert Stop(body, MAX_VARINT) == 0;
    }
  }

  /** An unknown field of any other wire type, or cut short, refuses the whole message. */
  lemma UnknownFieldIsRefused(field: nat, wire: nat, body: seq<byte>, x: RpcMessage)
    requires wire < 8 && 8 * field + wire < TWO64 && (field % TWO32 == 0 || field % TWO32 > 7)
    requires Broken(wire, body)
    ensures DecodeFrom(VarintBytes(8 * field + wire) + body, x) == None
  {
    var tag, number := TagIs(field, wire);
    hide *;
    BehindTag(tag, number, wire, body, x);
    UnknownParses(number, wire, body);
    BrokenIsNotSkipped(wire, body);
  }

  lemma TooLongParses(number: uint32, size: uint64, text: seq<byte>)
    requires size > |text|
    ensures ParseBody(number, 2, VarintBytes(size) + text) == Bad
  {
    ReadWritten(size, text);
    hide VarintBytes, Read;
  }

  /** A length that promises more bytes than there are refuses the message, whatever the
      field. */
  lemma TooLongIsRefused(field: nat, size: uint64, text: seq<byte>, x: RpcMessage)
    requires 8 * field + 2 < TWO64 && size > |text|
    ensures DecodeFrom(VarintBytes(8 * field + 2) + (VarintBytes(size) + text), x) == None
  {
    var tag, number := TagIs(field, 2);
    hide *;
    BehindTag(tag, number, 2, VarintBytes(size) + text, x);
    TooLongParses(number, size, text);
  }

  // ---------------------------------------------------------------- known fields

  lemma WrongTypeParses(number: uint32, wire: nat, body: seq<byte>)
    requires 1 <= number <= 7 && wire != (if number == 1 || number == 2 || number == 6 then 0 else 2)
    ensures ParseBody(number, wire, body) == Bad
  {
    hide Read, Skip;
  }

  /** A known field must come with its own wire type. */
  lemma WrongTypeIsRefused(field: nat, wire: nat, body: seq<byte>, x: RpcMessage)
    requires wire < 8 && 1 <= field <= 7
    requires wire != (if field == 1 || field == 2 || field == 6 then 0 else 2)
    ensures DecodeFrom(VarintBytes(8 * field + wire) + body, x) == None
  {
    var tag, number := SmallTag(field, wire);
    hide *;
    WrongTypeBehind(tag, number, wire, body, x);
  }

  lemma WrongTypeBehind(tag: uint64, number: uint32, wire: nat, body: seq<byte>, x: RpcMessage)
    requires TagOf(tag, number, wire)
    requires 1 <= number <= 7 && wire != (if number == 1 || number == 2 || number == 6 then 0 else 2)
    ensures DecodeFrom(VarintBytes(tag) + body, x) == None
  {
    hide *;
    BehindTag(tag, number, wire, body, x);
    WrongTypeParses(number, wire, body);
  }

  lemma SmallTag(field: nat, wire: nat) returns (tag: uint64, number: uint32)
    requires wire < 8 && field < 15
    ensures tag == 8 * field + wire && number == field && TagOf(tag, number, wire)
  {
    tag, number := TagIs(field, wire);
  }

  lemma NumberParses(number: uint32, v: uint64, rest: seq<byte>)
    requires NumField(number)
    ensures ParseBody(number, 0, VarintBytes(v) + rest) ==
      if NumRecord(number, v).None? then Bad else Good(NumRecord(number, v).value, |VarintBytes(v)|)
  {
    ReadWritten(v, rest);
    hide VarintBytes, Read, NumRecord;
  }

  /** What a numeric field does to the message so far. */
  function WithNumber(x: RpcMessage, field: nat, v: uint64): Option<RpcMessage>
  {
    if field == 1 then Some(x.(id := v))
    else if field == 2 then Some(x.(kind := v % 0x1_0000_0000))
    else if v < 0x8000_0000 then Some(x.(status := v))
    else None
  }

  lemma NumberApplies(number: uint32, v: uint64, x: RpcMessage)
    requires NumField(number)
    ensures NumRecord(number, v) == None <==> WithNumber(x, number, v) == None
    ensures NumRecord(number, v).Some? ==> Some(Apply(x, NumRecord(number, v).value)) == WithNumber(x, number, v)
  {
  }

  /** A numeric field takes any varint: the id whole, the kind cut to 32 bits, the status only
      if it is below 2^31. */
  lemma NumberFields(v: uint64, rest: seq<byte>, x: RpcMessage)
    ensures DecodeFrom(VarintBytes(8) + (VarintBytes(v) + rest), x) == DecodeFrom(rest, x.(id := v))
    ensures DecodeFrom(VarintBytes(16) + (VarintBytes(v) + rest), x) == DecodeFrom(rest, x.(kind := v % 0x1_0000_0000))
    ensures DecodeFrom(VarintBytes(48) + (VarintBytes(v) + rest), x) ==
      if v < 0x8000_0000 then DecodeFrom(rest, x.(status := v)) else None
  {
    assert TagOf(8, 1, 0) && TagOf(16, 2, 0) && TagOf(48, 6, 0);
    hide TagOf, DecodeFrom, VarintBytes;
    NumberBehind(8, 1, v, rest, x);
    NumberBehind(16, 2, v, rest, x);
    NumberBehind(48, 6, v, rest, x);
  }

  lemma NumberBehind(tag: uint64, number: uint32, v: uint64, rest: seq<byte>, x: RpcMessage)
    requires TagOf(tag, number, 0) && NumField(number)
    ensures DecodeFrom(VarintBytes(tag) + (VarintBytes(v) + rest), x) ==
      match WithNumber(x, number, v) case None => None case Some(y) => DecodeFrom(rest, y)
  {
    hide *;
    NumberParses(number, v, rest);
    NumberApplies(number, v, x);
    BehindTag(tag, number, 0, VarintBytes(v) + rest, x);
    assert (VarintBytes(v) + rest)[|VarintBytes(v)|..] == rest;
  }

  lemma TextParses(number: uint32, text: Text, rest: seq<byte>)
    requires TextField(number)
    ensures ParseBody(number, 2, VarintBytes(|text|) + (text + rest)) ==
      Good(TextRecord(number, text), |VarintBytes(|text|)| + |text|)
  {
    ReadWritten(|text|, text + rest);
    TextBody(number, VarintBytes(|text|), text, rest);
  }

  lemma TextBody(number: uint32, size: seq<byte>, text: Text, rest: seq<byte>)
    requires TextField(number) && Read(size + (text + rest)) == Varint(|text|, |size|)
    ensures ParseBody(number, 2, size + (text + rest)) == Good(TextRecord(number, text), |size| + |text|)
  {
    hide Read, TextRecord, Skip, NumRecord;
    assert (size + (text + rest))[|size|..|size| + |text|] == text;
  }

  /** What a text field does to the message so far. */
  function WithText(x: RpcMessage, field: nat, text: Text): RpcMessage
  {
    if field == 3 then x.(service := text)
    else if field == 4 then x.(methodName := text)
    else if field == 5 then x.(payload := text)
    else x.(error := text)
  }

  lemma TextApplies(number: uint32, text: Text, x: RpcMessage)
    requires TextField(number)
    ensures Apply(x, TextRecord(number, text)) == WithText(x, number, text)
  {
  }

  /** A text field takes its length and exactly that many bytes, as they are. */
  lemma TextFields(field: nat, text: Text, rest: seq<byte>, x: RpcMessage)
    requires field == 3 || field == 4 || field == 5 || field == 7
    ensures DecodeFrom(VarintBytes(8 * field + 2) + (VarintBytes(|text|) + (text + rest)), x)
         == DecodeFrom(rest, WithText(x, field, text))
  {
    var tag, number := SmallTag(field, 2);
    assert TextField(number);
    hide *;
    TextBehind(tag, number, text, rest, x);
  }

  lemma TextBehind(tag: uint64, number: uint32, text: Text, rest: seq<byte>, x: RpcMessage)
    requires TagOf(tag, number, 2) && TextField(number)
    ensures DecodeFrom(VarintBytes(tag) + (VarintBytes(|text|) + (text + rest)), x)
         == DecodeFrom(rest, WithText(x, number, text))
  {
    hide *;
    TextParses(number, text, rest);
    TextApplies(number, text, x);
    BehindTag(tag, number, 2, VarintBytes(|text|) + (text + rest), x);
    DropTwo(VarintBytes(|text|), text, rest);
  }

  lemma DropTwo(a: seq<byte>, b: seq<byte>, c: seq<byte>)
    ensures (a + (b + c))[|a| + |b|..] == c
  {
  }
}
