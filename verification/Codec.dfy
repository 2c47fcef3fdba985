/** The protobuf wire codec (protobuf_wire.cpp): `Encode` and `Decode` as the source
    writes them, and `Encoding`/`Decoding`, the functions they compute. */
module Codec {
  import opened Bits
  import opened Varint
  import opened Wrappers

  type Text = s: seq<byte> | |s| < 0x1_0000_0000_0000_0000 witness []

  /** `kind` is an enum over 32 bits: decoding can produce values without a name. */
  datatype RpcMessage = RpcMessage(id: uint64, kind: uint32, service: Text, methodName: Text,
                                   payload: Text, status: int32, error: Text)

  const KIND_REQUEST: uint32 := 1
  const KIND_RESPONSE: uint32 := 2

  const EMPTY := RpcMessage(0, 0, [], [], [], 0, [])

  const WIRE_VARINT := 0
  const WIRE_FIXED64 := 1
  const WIRE_LENGTH_DELIMITED := 2
  const WIRE_FIXED32 := 5

  // ---------------------------------------------------------------- encoding

  function Tag(field: nat, wire: nat): nat { 8 * field + wire }

  function NumChunk(field: nat, v: nat): seq<byte>
  {
    if v == 0 then [] else VarintBytes(Tag(field, WIRE_VARINT)) + VarintBytes(v)
  }

  function TextChunk(field: nat, text: seq<byte>): seq<byte>
  {
    if text == [] then []
    else VarintBytes(Tag(field, WIRE_LENGTH_DELIMITED)) + VarintBytes(|text|) + text
  }

  /** The bytes of a message: its non-default fields in field order. A negative status
      is cast to 32 unsigned bits, so it is written as a varint above INT32_MAX. */
  function Encoding(m: RpcMessage): seq<byte>
  {
    NumChunk(1, m.id) + NumChunk(2, m.kind) + TextChunk(3, m.service) + TextChunk(4, m.methodName)
    + TextChunk(5, m.payload) + NumChunk(6, m.status % TWO32) + TextChunk(7, m.error)
  }

  method WriteTag(out: seq<byte>, field: nat, wire: nat) returns (res: seq<byte>)
    requires field < TWO32 && wire < 8
    ensures res == out + VarintBytes(Tag(field, wire))
  {
    OrIsSum(wire, field, 3);
    OrComm(wire, field * 8);
    assert Pow2(3) == 8;
    res := WriteVarint(out, BitOr(field * 8, wire));
  }

  method WriteLengthDelimited(out: seq<byte>, field: nat, text: Text) returns (res: seq<byte>)
    requires field < TWO32
    ensures res == out + (VarintBytes(Tag(field, WIRE_LENGTH_DELIMITED)) + VarintBytes(|text|) + text)
  {
    res := WriteTag(out, field, WIRE_LENGTH_DELIMITED);
    res := WriteVarint(res, |text|);
    res := res + text;
  }

  method WriteNum(out: seq<byte>, field: nat, v: uint64) returns (res: seq<byte>)
    requires field < TWO32
    ensures res == out + NumChunk(field, v)
  {
    res := out;
    if v != 0 {
      res := WriteTag(res, field, WIRE_VARINT);
      res := WriteVarint(res, v);
    }
  }

  method WriteText(out: seq<byte>, field: nat, text: Text) returns (res: seq<byte>)
    requires field < TWO32
    ensures res == out + TextChunk(field, text)
  {
    res := out;
    if text != [] {
      res := WriteLengthDelimited(res, field, text);
    }
  }

  /** The seven conditional writes of `encode`, in its order. */
  method Encode(m: RpcMessage) returns (out: seq<byte>)
    ensures out == Encoding(m)
  {
    out := WriteNum([], 1, m.id);
    assert out == NumChunk(1, m.id);
    out := WriteNum(out, 2, m.kind);
    out := WriteText(out, 3, m.service);
    out := WriteText(out, 4, m.methodName);
    out := WriteText(out, 5, m.payload);
    out := WriteNum(out, 6, m.status % TWO32);
    out := WriteText(out, 7, m.error);
  }

  // ---------------------------------------------------------------- decoding

  /** What one record on the wire says. A field the schema does not know says nothing. */
  datatype Record =
    | Id(id: uint64)
    | Kind(kind: uint32)
    | Service(text: Text)
    | MethodName(text: Text)
    | Payload(text: Text)
    | Status(status: int32)
    | Error(text: Text)
    | Unknown

  datatype Parse = Bad | Good(record: Record, used: nat)

  function Apply(m: RpcMessage, r: Record): RpcMessage
  {
    match r
    case Id(v) => m.(id := v)
    case Kind(v) => m.(kind := v)
    case Service(t) => m.(service := t)
    case MethodName(t) => m.(methodName := t)
    case Payload(t) => m.(payload := t)
    case Status(v) => m.(status := v)
    case Error(t) => m.(error := t)
    case Unknown => m
  }

  predicate NumField(field: nat) { field == 1 || field == 2 || field == 6 }

  predicate TextField(field: nat) { field == 3 || field == 4 || field == 5 || field == 7 }

  function NumRecord(field: nat, v: uint64): (p: Option<Record>)
    requires NumField(field)
  {
    if field == 1 then Some(Id(v))
    else if field == 2 then Some(Kind(v % TWO32))
    else if v > INT32_MAX then None
    else Some(Status(v))
  }

  function TextRecord(field: nat, t: Text): Record
    requires TextField(field)
  {
    if field == 3 then Service(t)
    else if field == 4 then MethodName(t)
    else if field == 5 then Payload(t)
    else Error(t)
  }

  /** How many bytes a field of an unknown number takes after its tag, or None. */
  function Skip(wire: nat, s: seq<byte>): (r: Option<nat>)
    ensures r.Some? ==> r.value <= |s|
  {
    if wire == WIRE_VARINT then
      match Read(s) case NoVarint => None case Varint(_, k) => Some(k)
    else if wire == WIRE_FIXED64 then
      if |s| < 8 then None else Some(8)
    else if wire == WIRE_LENGTH_DELIMITED then
      match Read(s)
      case NoVarint => None
      case Varint(size, k) => if size > |s| - k then None else Some(k + size)
    else if wire == WIRE_FIXED32 then
      if |s| < 4 then None else Some(4)
    else None
  }

  /** The record at the front of `s` when its tag has been read: field and wire type. */
  function ParseBody(field: uint32, wire: nat, s: seq<byte>): (p: Parse)
    ensures p.Good? ==> p.used <= |s|
  {
    if NumField(field) then
      if wire != WIRE_VARINT then Bad else
        match Read(s)
        case NoVarint => Bad
        case Varint(v, k) =>
          match NumRecord(field, v) case None => Bad case Some(r) => Good(r, k)
    else if TextField(field) then
      if wire != WIRE_LENGTH_DELIMITED then Bad else
        match Read(s)
        case NoVarint => Bad
        case Varint(size, k) =>
          if size > |s| - k then Bad
          else Good(TextRecord(field, s[k..k + size]), k + size)
    else
      match Skip(wire, s) case None => Bad case Some(k) => Good(Unknown, k)
  }

  /** The field number is the tag's upper bits truncated to 32 bits. */
  function ParseRecord(s: seq<byte>): (p: Parse)
    ensures p.Good? ==> 0 < p.used <= |s|
  {
    match Read(s)
    case NoVarint => Bad
    case Varint(tag, n) =>
      match ParseBody((tag / 8) % TWO32, tag % 8, s[n..])
      case Bad => Bad
      case Good(r, k) => Good(r, n + k)
  }

  function DecodeFrom(s: seq<byte>, m: RpcMessage): Option<RpcMessage>
  {
    if s == [] then Some(m)
    else
      match ParseRecord(s)
      case Bad => None
      case Good(r, used) => DecodeFrom(s[used..], Apply(m, r))
  }

  function Decoding(s: seq<byte>): Option<RpcMessage> { DecodeFrom(s, EMPTY) }

  method SkipField(bytes: seq<byte>, start: nat, wire: nat) returns (ok: bool, pos: nat)
    requires start <= |bytes|
    ensures start <= pos <= |bytes|
    ensures ok == Skip(wire, bytes[start..]).Some?
    ensures ok ==> pos == start + Skip(wire, bytes[start..]).value
  {
    pos := start;
    if wire == WIRE_VARINT {
      var ignored;
      ok, pos, ignored := ReadVarint(bytes, pos);
    } else if wire == WIRE_FIXED64 {
      if |bytes| - pos < 8 { return false, pos; }
      return true, pos + 8;
    } else if wire == WIRE_LENGTH_DELIMITED {
      var size;
      ok, pos, size := ReadVarint(bytes, pos);
      if !ok || size > |bytes| - pos { return false, pos; }
      return true, pos + size;
    } else if wire == WIRE_FIXED32 {
      if |bytes| - pos < 4 { return false, pos; }
      return true, pos + 4;
    } else {
      ok := false;
    }
  }

  /** The body of the decode loop's switch, once the tag has been read. */
  method DecodeField(bytes: seq<byte>, start: nat, field: uint32, wire: nat, m: RpcMessage)
    returns (ok: bool, pos: nat, message: RpcMessage)
    requires start <= |bytes|
    ensures start <= pos <= |bytes|
    ensures var p := ParseBody(field, wire, bytes[start..]);
      && ok == p.Good?
      && (ok ==> pos == start + p.used && message == Apply(m, p.record))
  {
    message := m;
    pos := start;
    if NumField(field) {
      if wire != WIRE_VARINT { return false, pos, message; }
      var value;
      ok, pos, value := ReadVarint(bytes, pos);
      if !ok { return; }
      if field == 1 {
        message := message.(id := value);
      } else if field == 2 {
        message := message.(kind := value % TWO32);
      } else {
        if value > INT32_MAX { return false, pos, message; }
        message := message.(status := value);
      }
    } else if TextField(field) {
      if wire != WIRE_LENGTH_DELIMITED { return false, pos, message; }
      var size;
      ok, pos, size := ReadVarint(bytes, pos);
      if !ok || size > |bytes| - pos { return false, pos, message; }
      var value := bytes[pos..pos + size];
      assert value == bytes[start..][pos - start..pos - start + size];
      pos := pos + size;
      if field == 3 {
        message := message.(service := value);
      } else if field == 4 {
        message := message.(methodName := value);
      } else if field == 5 {
        message := message.(payload := value);
      } else {
        message := message.(error := value);
      }
    } else {
      ok, pos := SkipField(bytes, pos, wire);
    }
  }

  /** One iteration of the decode loop, as an unfolding of `DecodeFrom`. */
  lemma DecodeUnfold(bytes: seq<byte>, start: nat, after: nat, m: RpcMessage, p: Parse)
    requires start < |bytes| && Read(bytes[start..]).Varint?
    requires start + Read(bytes[start..]).used == after
    requires var tag := Read(bytes[start..]).value;
      p == ParseBody((tag / 8) % TWO32, tag % 8, bytes[after..])
    ensures p.Bad? ==> DecodeFrom(bytes[start..], m) == None
    ensures p.Good? ==> after + p.used <= |bytes|
    ensures p.Good? ==>
      DecodeFrom(bytes[start..], m) == DecodeFrom(bytes[after + p.used..], Apply(m, p.record))
  {
    hide Read;
    hide ParseBody, Apply;
    var s := bytes[start..];
    assert s[after - start..] == bytes[after..];
    if p.Good? {
      assert s[after - start + p.used..] == bytes[after + p.used..];
    }
  }

  lemma DecodeEmpty(m: RpcMessage)
    ensures DecodeFrom([], m) == Some(m)
  {
  }

  lemma NoTag(s: seq<byte>, m: RpcMessage)
    requires s != [] && Read(s).NoVarint?
    ensures DecodeFrom(s, m) == None
  {
  }

  method Decode(bytes: seq<byte>) returns (result: Option<RpcMessage>)
    ensures result == Decoding(bytes)
  {
    hide DecodeFrom, ParseRecord, ParseBody, Apply, Read;
    var message := EMPTY;
    var pos := 0;
    assert bytes[0..] == bytes;
    assert DecodeFrom(bytes, EMPTY) == Decoding(bytes);
    while pos < |bytes|
      invariant pos <= |bytes|
      invariant DecodeFrom(bytes[pos..], message) == Decoding(bytes)
    {
      ghost var start, before := pos, message;
      var ok, tag;
      ok, pos, tag := ReadVarint(bytes, pos);
      if !ok {
        NoTag(bytes[start..], message);
        return None;
      }
      var field := (tag / 8) % TWO32;
      DecodeUnfold(bytes, start, pos, message, ParseBody(field, tag % 8, bytes[pos..]));
      ok, pos, message := DecodeField(bytes, pos, field, tag % 8, message);
      if !ok { return None; }
    }
    assert bytes[pos..] == [];
    assert DecodeFrom([], message) == Some(message) by { DecodeEmpty(message); }
    result := Some(message);
  }
}
