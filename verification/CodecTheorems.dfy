/** What the codec promises: round trip, merge, canonical size, independence of record
    order and of unknown fields, and which prefixes decode. */
module CodecTheorems {
  import opened Bits
  import opened Varint
  import opened Codec
  import opened Wrappers
  import opened Seqs

  // ------------------------------------------- a record depends on its own bytes only

  lemma ParseBodyAgree(field: uint32, wire: nat, s: seq<byte>, t: seq<byte>)
    requires ParseBody(field, wire, s).Good?
    requires ParseBody(field, wire, s).used <= |t|
    requires s[..ParseBody(field, wire, s).used] == t[..ParseBody(field, wire, s).used]
    ensures ParseBody(field, wire, t) == ParseBody(field, wire, s)
  {
    var n := ParseBody(field, wire, s).used;
    if Read(s).Varint? && Read(s).used <= n {
      var k := Read(s).used;
      assert s[..k] == s[..n][..k] == t[..n][..k] == t[..k];
      ReadAgree(s, t);
      assert s[k..n] == s[..n][k..] == t[..n][k..] == t[k..n];
    }
  }

  lemma ParseAgree(s: seq<byte>, t: seq<byte>)
    requires ParseRecord(s).Good? && ParseRecord(s).used <= |t|
    requires s[..ParseRecord(s).used] == t[..ParseRecord(s).used]
    ensures ParseRecord(t) == ParseRecord(s)
  {
    hide ParseBody;
    var u := ParseRecord(s).used;
    var Varint(tag, n) := Read(s);
    assert s[..n] == s[..u][..n] == t[..u][..n] == t[..n];
    ReadAgree(s, t);
    assert s[n..][..u - n] == s[..u][n..] == t[..u][n..] == t[n..][..u - n];
    ParseBodyAgree((tag / 8) % TWO32, tag % 8, s[n..], t[n..]);
  }

  /** A whole record in front of `rest` is decoded first. */
  lemma RecordFirst(c: seq<byte>, rest: seq<byte>, x: RpcMessage)
    requires ParseRecord(c).Good? && ParseRecord(c).used == |c|
    ensures DecodeFrom(c + rest, x) == DecodeFrom(rest, Apply(x, ParseRecord(c).record))
  {
    assert (c + rest)[..|c|] == c == c[..|c|];
    ParseAgree(c, c + rest);
    assert (c + rest)[|c|..] == rest;
  }

  /** Decoding a concatenation continues on the second part from the first's message. */
  lemma {:induction false} DecodeConcat(a: seq<byte>, b: seq<byte>, x: RpcMessage)
    requires DecodeFrom(a, x).Some?
    ensures DecodeFrom(a + b, x) == DecodeFrom(b, DecodeFrom(a, x).value)
    decreases |a|
  {
    hide ParseRecord, Apply;
    if a == [] {
      assert a + b == b;
    } else {
      var Good(r, u) := ParseRecord(a);
      assert (a + b)[..u] == a[..u];
      ParseAgree(a, a + b);
      assert (a + b)[u..] == a[u..] + b;
      DecodeConcat(a[u..], b, Apply(x, r));
    }
  }

  // ------------------------------------------------------- round trip and merge

  lemma NumChunkParses(field: nat, v: uint64)
    requires NumField(field) && v != 0
    ensures ParseRecord(NumChunk(field, v)) ==
      match NumRecord(field, v) case None => Bad case Some(r) => Good(r, |NumChunk(field, v)|)
  {
    hide Read, VarintBytes;
    var t := VarintBytes(Tag(field, WIRE_VARINT));
    ReadWritten(Tag(field, WIRE_VARINT), VarintBytes(v));
    assert NumChunk(field, v)[|t|..] == VarintBytes(v);
    ReadWritten(v, []);
    assert VarintBytes(v) + [] == VarintBytes(v);
  }

  /** A status above INT32_MAX stops decoding wherever it stands. */
  lemma BadStatus(v: uint64, rest: seq<byte>)
    requires v > INT32_MAX
    ensures ParseRecord(NumChunk(6, v) + rest) == Bad
  {
    hide Read, VarintBytes;
    var tag := Tag(6, WIRE_VARINT);
    var s := NumChunk(6, v) + rest;
    assert s == VarintBytes(tag) + (VarintBytes(v) + rest);
    ReadWritten(tag, VarintBytes(v) + rest);
    assert s[|VarintBytes(tag)|..] == VarintBytes(v) + rest;
    ReadWritten(v, rest);
  }

  lemma NumChunkDecodes(field: nat, v: uint64, rest: seq<byte>, x: RpcMessage)
    requires NumField(field)
    ensures DecodeFrom(NumChunk(field, v) + rest, x) ==
      if v == 0 then DecodeFrom(rest, x)
      else match NumRecord(field, v)
        case None => None
        case Some(r) => DecodeFrom(rest, Apply(x, r))
  {
    if v == 0 {
      assert NumChunk(field, v) + rest == rest;
    } else if NumRecord(field, v).None? {
      BadStatus(v, rest);
    } else {
      NumChunkParses(field, v);
      RecordFirst(NumChunk(field, v), rest, x);
    }
  }

  lemma TextChunkParses(field: nat, t: Text)
    requires TextField(field) && t != []
    ensures ParseRecord(TextChunk(field, t)) == Good(TextRecord(field, t), |TextChunk(field, t)|)
  {
    hide Read, VarintBytes;
    var tag, size := Tag(field, WIRE_LENGTH_DELIMITED), VarintBytes(|t|);
    var s := TextChunk(field, t);
    assert s == VarintBytes(tag) + (size + t);
    ReadWritten(tag, size + t);
    assert s[|VarintBytes(tag)|..] == size + t;
    ReadWritten(|t|, t);
    assert (size + t)[|size|..|size| + |t|] == t;
  }

  lemma TextChunkDecodes(field: nat, t: Text, rest: seq<byte>, x: RpcMessage)
    requires TextField(field)
    ensures DecodeFrom(TextChunk(field, t) + rest, x) ==
      if t == [] then DecodeFrom(rest, x) else DecodeFrom(rest, Apply(x, TextRecord(field, t)))
  {
    if t == [] {
      assert TextChunk(field, t) + rest == rest;
    } else {
      TextChunkParses(field, t);
      RecordFirst(TextChunk(field, t), rest, x);
    }
  }

  /** `y`'s non-default fields over `x`'s: protobuf's "Last One Wins". */
  function Merge(x: RpcMessage, y: RpcMessage): RpcMessage
  {
    RpcMessage(
      if y.id != 0 then y.id else x.id,
      if y.kind != 0 then y.kind else x.kind,
      if y.service != [] then y.service else x.service,
      if y.methodName != [] then y.methodName else x.methodName,
      if y.payload != [] then y.payload else x.payload,
      if y.status != 0 then y.status else x.status,
      if y.error != [] then y.error else x.error)
  }

  lemma EncodingSplits(m: RpcMessage, rest: seq<byte>)
    ensures Encoding(m) + rest ==
      NumChunk(1, m.id) + (NumChunk(2, m.kind) + (TextChunk(3, m.service) + (TextChunk(4, m.methodName)
      + (TextChunk(5, m.payload) + (NumChunk(6, m.status % TWO32) + (TextChunk(7, m.error) + rest))))))
  {
    hide NumChunk, TextChunk;
    var a, b, c, d := NumChunk(1, m.id), NumChunk(2, m.kind), TextChunk(3, m.service), TextChunk(4, m.methodName);
    var e, f, g := TextChunk(5, m.payload), NumChunk(6, m.status % TWO32), TextChunk(7, m.error);
    assert a + b + c + d + e + f + g + rest == a + b + c + d + e + (f + (g + rest));
    assert a + b + c + d + e + (f + (g + rest)) == a + b + c + (d + (e + (f + (g + rest))));
  }

  /** Decoding an encoded message in front of anything lays its fields over those so far;
      a negative status makes the whole decode fail, whatever follows. */
  lemma EncodingDecodes(y: RpcMessage, rest: seq<byte>, x: RpcMessage)
    ensures DecodeFrom(Encoding(y) + rest, x) ==
      if y.status >= 0 then DecodeFrom(rest, Merge(x, y)) else None
  {
    hide DecodeFrom, NumChunk, TextChunk, Encoding;
    EncodingSplits(y, rest);
    var t5 := LastFields(y, rest);
    var t4 := TextChunk(4, y.methodName) + t5;
    var t3 := TextChunk(3, y.service) + t4;
    var t2 := NumChunk(2, y.kind) + t3;
    NumChunkDecodes(1, y.id, t2, x);
    var x1 := if y.id != 0 then x.(id := y.id) else x;
    NumChunkDecodes(2, y.kind, t3, x1);
    var x2 := if y.kind != 0 then x1.(kind := y.kind) else x1;
    TextChunkDecodes(3, y.service, t4, x2);
    var x3 := if y.service != [] then x2.(service := y.service) else x2;
    TextChunkDecodes(4, y.methodName, t5, x3);
    var x4 := if y.methodName != [] then x3.(methodName := y.methodName) else x3;
    LastFieldsDecode(y, rest, x4);
  }

  /** The bytes from the payload on. */
  function LastFields(y: RpcMessage, rest: seq<byte>): seq<byte>
  {
    TextChunk(5, y.payload) + (NumChunk(6, y.status % TWO32) + (TextChunk(7, y.error) + rest))
  }

  lemma LastFieldsDecode(y: RpcMessage, rest: seq<byte>, x: RpcMessage)
    ensures DecodeFrom(LastFields(y, rest), x) ==
      if y.status >= 0 then
        DecodeFrom(rest, x.(payload := if y.payload != [] then y.payload else x.payload,
                            status := if y.status != 0 then y.status else x.status,
                            error := if y.error != [] then y.error else x.error))
      else None
  {
    hide DecodeFrom, NumChunk, TextChunk;
    var t7 := TextChunk(7, y.error) + rest;
    var t6 := NumChunk(6, y.status % TWO32) + t7;
    TextChunkDecodes(5, y.payload, t6, x);
    var x5 := if y.payload != [] then x.(payload := y.payload) else x;
    NumChunkDecodes(6, y.status % TWO32, t7, x5);
    if y.status >= 0 {
      var x6 := if y.status != 0 then x5.(status := y.status) else x5;
      TextChunkDecodes(7, y.error, rest, x6);
    }
  }

  /** Exact round trip: every message with a non-negative status comes back, every other
      message is refused. */
  lemma RoundTrip(m: RpcMessage)
    ensures Decoding(Encoding(m)) == if m.status >= 0 then Some(m) else None
  {
    EncodingDecodes(m, [], EMPTY);
    assert Encoding(m) + [] == Encoding(m);
  }

  lemma ConcatIsMerge(x: RpcMessage, y: RpcMessage)
    requires x.status >= 0 && y.status >= 0
    ensures Decoding(Encoding(x) + Encoding(y)) == Some(Merge(x, y))
  {
    EncodingDecodes(x, Encoding(y), EMPTY);
    EncodingDecodes(y, [], x);
    assert Encoding(y) + [] == Encoding(y);
  }

  // ---------------------------------------------- the canonical encoding is shortest

  /** The bytes the encoder writes for what a record says. */
  function ChunkOf(r: Record): seq<byte>
  {
    match r
    case Id(v) => NumChunk(1, v)
    case Kind(v) => NumChunk(2, v)
    case Service(t) => TextChunk(3, t)
    case MethodName(t) => TextChunk(4, t)
    case Payload(t) => TextChunk(5, t)
    case Status(v) => NumChunk(6, v % TWO32)
    case Error(t) => TextChunk(7, t)
    case Unknown => []
  }

  lemma RecordFits(s: seq<byte>)
    requires ParseRecord(s).Good?
    ensures |ChunkOf(ParseRecord(s).record)| <= ParseRecord(s).used
    ensures ParseRecord(s).record.Status? ==> ParseRecord(s).record.status >= 0
  {
    var Varint(tag, n) := Read(s);
    var body := s[n..];
    match Read(body)
    case NoVarint =>
    case Varint(v, k) =>
      WrittenIsShortest(body);
      VarintMonotone(v % TWO32, v);
  }

  lemma ApplyGrowth(m: RpcMessage, r: Record)
    ensures |Encoding(Apply(m, r))| <= |Encoding(m)| + |ChunkOf(r)|
  {
  }

  lemma {:induction false} DecodeGrowth(s: seq<byte>, x: RpcMessage)
    requires DecodeFrom(s, x).Some? && x.status >= 0
    ensures DecodeFrom(s, x).value.status >= 0
    ensures |Encoding(DecodeFrom(s, x).value)| <= |Encoding(x)| + |s|
    decreases |s|
  {
    hide Encoding, ChunkOf, ParseRecord;
    if s != [] {
      var Good(r, u) := ParseRecord(s);
      RecordFits(s);
      ApplyGrowth(x, r);
      DecodeGrowth(s[u..], Apply(x, r));
    }
  }

  /** Any bytes that decode to a message are at least as long as the message's encoding,
      and the message decoded is itself one that survives the round trip. */
  lemma EncodingIsShortest(b: seq<byte>)
    requires Decoding(b).Some?
    ensures var m := Decoding(b).value;
      && |Encoding(m)| <= |b|
      && Decoding(Encoding(m)) == Some(m)
  {
    DecodeGrowth(b, EMPTY);
    assert Encoding(EMPTY) == [];
    RoundTrip(Decoding(b).value);
  }

  // ------------------------------------------------ order and extension independence

  /** Number of the field a record sets; 0 for a field outside the schema. */
  function FieldOf(r: Record): nat
  {
    match r
    case Id(_) => 1 case Kind(_) => 2 case Service(_) => 3 case MethodName(_) => 4
    case Payload(_) => 5 case Status(_) => 6 case Error(_) => 7 case Unknown => 0
  }

  predicate SameField(m: RpcMessage, n: RpcMessage, field: nat)
  {
    && (field == 1 ==> m.id == n.id) && (field == 2 ==> m.kind == n.kind)
    && (field == 3 ==> m.service == n.service) && (field == 4 ==> m.methodName == n.methodName)
    && (field == 5 ==> m.payload == n.payload) && (field == 6 ==> m.status == n.status)
    && (field == 7 ==> m.error == n.error)
  }

  /** The record states a field of `m`. */
  predicate Says(m: RpcMessage, r: Record) { Apply(m, r) == m }

  function ApplyAll(rs: seq<Record>, x: RpcMessage): RpcMessage
  {
    if rs == [] then x else ApplyAll(rs[1..], Apply(x, rs[0]))
  }

  /** Each string is exactly one well-formed record on the wire, saying `rs[i]`. */
  ghost predicate Splits(cs: seq<seq<byte>>, rs: seq<Record>)
  {
    |cs| == |rs| && forall i :: 0 <= i < |cs| ==> ParseRecord(cs[i]) == Good(rs[i], |cs[i]|)
  }

  lemma {:induction false} SplitDecodes(cs: seq<seq<byte>>, rs: seq<Record>, x: RpcMessage)
    requires Splits(cs, rs)
    ensures DecodeFrom(Flatten(cs), x) == Some(ApplyAll(rs, x))
    decreases |cs|
  {
    if cs != [] {
      RecordFirst(cs[0], Flatten(cs[1..]), x);
      SplitDecodes(cs[1..], rs[1..], Apply(x, rs[0]));
    }
  }

  /** Last one wins, for any records: a field ends as its last record says. */
  lemma {:induction false} LastRecordWins(rs: seq<Record>, x: RpcMessage, i: nat)
    requires i < |rs|
    requires forall j :: i < j < |rs| ==> FieldOf(rs[j]) != FieldOf(rs[i])
    ensures Says(ApplyAll(rs, x), rs[i])
    decreases |rs|
  {
    if i == 0 {
      var y := Apply(x, rs[0]);
      FieldKept(rs[1..], y, y, FieldOf(rs[0]));
    } else {
      LastRecordWins(rs[1..], Apply(x, rs[0]), i - 1);
    }
  }

  /** If every record of a field agrees with `m`, and there is one or the start agrees,
      then the result agrees with `m` on that field. */
  lemma {:induction false} FieldKept(rs: seq<Record>, x: RpcMessage, m: RpcMessage, field: nat)
    requires forall r <- rs :: FieldOf(r) == field ==> Says(m, r)
    requires SameField(x, m, field) || exists r <- rs :: FieldOf(r) == field
    ensures SameField(ApplyAll(rs, x), m, field)
    decreases |rs|
  {
    if rs != [] {
      assert FieldOf(rs[0]) == field ==> Says(m, rs[0]);
      if !(FieldOf(rs[0]) == field || SameField(x, m, field)) {
        var r :| r in rs && FieldOf(r) == field;
        assert r in rs[1..];
      }
      FieldKept(rs[1..], Apply(x, rs[0]), m, field);
    }
  }

  /** The records a message's encoding consists of, as a set. */
  function RecordSet(m: RpcMessage): set<Record>
  {
    (if m.id != 0 then {Id(m.id)} else {})
    + (if m.kind != 0 then {Kind(m.kind)} else {})
    + (if m.service != [] then {Service(m.service)} else {})
    + (if m.methodName != [] then {MethodName(m.methodName)} else {})
    + (if m.payload != [] then {Payload(m.payload)} else {})
    + (if m.status != 0 then {Status(m.status)} else {})
    + (if m.error != [] then {Error(m.error)} else {})
  }

  /** A field that is not at its default has its record in the set. */
  lemma FieldHasRecord(m: RpcMessage, field: nat) returns (r: Record)
    requires 1 <= field <= 7 && !SameField(EMPTY, m, field)
    ensures r in RecordSet(m) && FieldOf(r) == field
  {
    r := if field == 1 then Id(m.id) else if field == 2 then Kind(m.kind)
      else if field == 3 then Service(m.service) else if field == 4 then MethodName(m.methodName)
      else if field == 5 then Payload(m.payload) else if field == 6 then Status(m.status) else Error(m.error);
  }

  lemma SetSays(m: RpcMessage, r: Record)
    requires r in RecordSet(m)
    ensures Says(m, r) && r != Unknown
  {
  }

  lemma SetFieldAgrees(rs: seq<Record>, m: RpcMessage, field: nat)
    requires (set r | r in rs && r != Unknown) == RecordSet(m)
    requires 1 <= field <= 7
    ensures SameField(ApplyAll(rs, EMPTY), m, field)
  {
    hide RecordSet, SameField, Says, ApplyAll;
    forall r | r in rs && FieldOf(r) == field ensures Says(m, r) {
      assert r in RecordSet(m);
      SetSays(m, r);
    }
    if !SameField(EMPTY, m, field) {
      var want := FieldHasRecord(m, field);
      assert want in rs;
    }
    FieldKept(rs, EMPTY, m, field);
  }

  /** Order and extension independence: the records of `m` in any order, each any positive
      number of times, with any well-formed records of unknown fields in between, decode
      to `m`. */
  lemma OrderAndUnknownsDoNotMatter(m: RpcMessage, cs: seq<seq<byte>>, rs: seq<Record>)
    requires Splits(cs, rs)
    requires (set r | r in rs && r != Unknown) == RecordSet(m)
    ensures Decoding(Flatten(cs)) == Some(m)
  {
    SplitDecodes(cs, rs, EMPTY);
    forall field | 1 <= field <= 7 ensures SameField(ApplyAll(rs, EMPTY), m, field) {
      SetFieldAgrees(rs, m, field);
    }
    var n := ApplyAll(rs, EMPTY);
    assert SameField(n, m, 1) && SameField(n, m, 2) && SameField(n, m, 3) && SameField(n, m, 4);
    assert SameField(n, m, 5) && SameField(n, m, 6) && SameField(n, m, 7);
  }

  // ------------------------------------------------------------ prefixes that decode

  /** `k` is the end of a record, or the start. */
  predicate Boundary(s: seq<byte>, k: nat)
    requires k <= |s|
    decreases |s|
  {
    k == 0 ||
    match ParseRecord(s)
    case Bad => false
    case Good(_, u) => u <= k && Boundary(s[u..], k - u)
  }

  /** A prefix of a decodable string decodes exactly when the cut is between records. */
  lemma {:induction false} PrefixDecodes(s: seq<byte>, k: nat, x: RpcMessage)
    requires k <= |s| && DecodeFrom(s, x).Some?
    ensures DecodeFrom(s[..k], x).Some? <==> Boundary(s, k)
    decreases |s|
  {
    hide Read, ParseBody, Apply;
    if k > 0 {
      var Good(r, u) := ParseRecord(s);
      var p := s[..k];
      if u <= k {
        assert p[..u] == s[..u];
        ParseAgree(s, p);
        assert p[u..] == s[u..][..k - u];
        PrefixDecodes(s[u..], k - u, Apply(x, r));
      } else if ParseRecord(p).Good? {
        var v := ParseRecord(p).used;
        assert s[..v] == p[..v];
        ParseAgree(p, s);
        assert false;
      }
    }
  }
}
