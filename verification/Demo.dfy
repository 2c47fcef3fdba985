/** The demo server's request handler (server_main.cpp), and which replies fit a frame. */
module Demo {
  import opened Bits
  import opened Varint
  import opened Codec
  import opened CodecTheorems
  import opened Framing
  import opened Wrappers

  function Ascii(s: string): (r: seq<byte>)
    ensures |r| == |s|
  {
    seq(|s|, i requires 0 <= i < |s| => s[i] as int % 256)
  }

  const DEMO_SERVICE := Ascii("DemoService")
  const ECHO := Ascii("echo")
  const UPPER := Ascii("upper")
  const TIME := Ascii("time")
  const UNKNOWN_SERVICE := Ascii("unknown service: ")
  const UNKNOWN_METHOD := Ascii("unknown method: ")

  /** `toupper` of the C locale, byte by byte. */
  function Upper(s: seq<byte>): (r: seq<byte>)
    ensures |r| == |s|
  {
    seq(|s|, i requires 0 <= i < |s| => if 97 <= s[i] <= 122 then s[i] - 32 else s[i])
  }

  lemma FramedTextsAreShort(m: RpcMessage)
    requires Fits(m)
    ensures |m.service| <= MAX_FRAME && |m.methodName| <= MAX_FRAME && |m.payload| <= MAX_FRAME
  {
  }

  /** `handle_demo_request`, with the clock's text given. */
  function Reply(request: RpcMessage, now: Text): RpcMessage
    requires Fits(request)
  {
    FramedTextsAreShort(request);
    var base := EMPTY.(id := request.id, kind := KIND_RESPONSE, service := request.service,
                       methodName := request.methodName);
    if request.service != DEMO_SERVICE then
      base.(status := 404, error := UNKNOWN_SERVICE + request.service)
    else if request.methodName == ECHO then base.(payload := request.payload)
    else if request.methodName == UPPER then base.(payload := Upper(request.payload))
    else if request.methodName == TIME then base.(payload := now)
    else base.(status := 404, error := UNKNOWN_METHOD + request.methodName)
  }

  /** Any request that arrived in a frame and names echo or upper gets a reply that fits in
      a frame: decoding, re-encoding and the size limit agree, whatever bytes the request
      was written with. */
  lemma EchoAndUpperRepliesFit(payload: seq<byte>, now: Text)
    requires |payload| <= MAX_FRAME && Decoding(payload).Some?
    requires var request := Decoding(payload).value;
      && request.kind == KIND_REQUEST && request.service == DEMO_SERVICE
      && (request.methodName == ECHO || request.methodName == UPPER)
    ensures var request := Decoding(payload).value;
      Fits(request) && Fits(Reply(request, now)) && |Encoding(Reply(request, now))| <= |payload|
  {
    hide NumChunk, TextChunk, VarintBytes, Decoding, Encoding, Ascii, Upper;
    EncodingIsShortest(payload);
    var request := Decoding(payload).value;
    var reply := Reply(request, now);
    EncodingSize(request);
    EncodingSize(reply);
    NumSizes();
    NumOne();
    UpperSize(request.payload);
    EmptyText(5);
    EmptyText(7);
  }

  predicate Known(request: RpcMessage)
  {
    request.service == DEMO_SERVICE
    && (request.methodName == ECHO || request.methodName == UPPER || request.methodName == TIME)
  }

  /** What the caller of a request gets back: the bytes of the reply decode to a response
      with the request's id and names, which carries the payload asked for and no error if
      the service knows the method, and 404 with no payload if not. */
  lemma ReplyComesBack(request: RpcMessage, now: Text)
    requires Fits(request) && request.kind == KIND_REQUEST
    ensures Decoding(Encoding(Reply(request, now))) == Some(Reply(request, now))
    ensures var r := Reply(request, now);
      && r.id == request.id && r.kind == KIND_RESPONSE
      && r.service == request.service && r.methodName == request.methodName
      && (Known(request) ==> r.status == 0 && r.error == [])
      && (Known(request) && request.methodName == ECHO ==> r.payload == request.payload)
      && (Known(request) && request.methodName == UPPER ==>
           |r.payload| == |request.payload| && forall i :: 0 <= i < |r.payload| ==>
             r.payload[i] == if 97 <= request.payload[i] <= 122 then request.payload[i] - 32 else request.payload[i])
      && (Known(request) && request.methodName == TIME ==> r.payload == now)
      && (!Known(request) ==> r.status == 404 && r.payload == [])
      && (request.service != DEMO_SERVICE ==> r.error == UNKNOWN_SERVICE + request.service)
      && (!Known(request) && request.service == DEMO_SERVICE ==> r.error == UNKNOWN_METHOD + request.methodName)
  {
    hide Encoding, Decoding;
    RoundTrip(Reply(request, now));
    MethodsDiffer();
  }

  lemma MethodsDiffer()
    ensures ECHO != UPPER && ECHO != TIME && UPPER != TIME
  {
    assert ECHO[0] == 101 && TIME[0] == 116;
  }

  lemma EncodingSize(m: RpcMessage)
    ensures |Encoding(m)| == |NumChunk(1, m.id)| + |NumChunk(2, m.kind)| + |TextChunk(3, m.service)|
      + |TextChunk(4, m.methodName)| + |TextChunk(5, m.payload)| + |NumChunk(6, m.status % TWO32)|
      + |TextChunk(7, m.error)|
  {
    hide NumChunk, TextChunk;
  }

  lemma UpperSize(t: Text)
    ensures |TextChunk(5, Upper(t))| == |TextChunk(5, t)|
  {
    hide VarintBytes;
  }

  lemma EmptyText(field: nat)
    ensures TextChunk(field, []) == []
  {
  }

  /** How many bytes a text field of `n` bytes takes. */
  function TextSize(n: nat): nat { if n == 0 then 0 else 1 + |VarintBytes(n)| + n }

  /** What a refusal adds to the names it repeats: kind and status. */
  const REFUSAL_OVERHEAD: nat := 5

  predicate Refused(request: RpcMessage)
  {
    request.service == DEMO_SERVICE ==> request.methodName !in {ECHO, UPPER, TIME}
  }

  /** The two refusals repeat a name, so they do not always fit. Exactly when they do, from
      the lengths of the request's names. */
  lemma RefusalFitsIff(request: RpcMessage, now: Text)
    requires Fits(request) && request.kind == KIND_REQUEST && Refused(request)
    ensures Fits(Reply(request, now)) <==>
      |NumChunk(1, request.id)| + TextSize(|request.service|) + TextSize(|request.methodName|) + REFUSAL_OVERHEAD
      + (if request.service != DEMO_SERVICE then TextSize(17 + |request.service|)
         else TextSize(16 + |request.methodName|)) <= MAX_FRAME
  {
    RefusalRepeatsAName(request, now);
    hide Reply, Refused, Ascii, Encoding, VarintBytes, NumChunk, TextChunk;
    var m := Reply(request, now);
    EncodingSize(m);
    EmptyText(5);
    TextSizes(3, m.service);
    TextSizes(4, m.methodName);
    TextSizes(7, m.error);
    NumSizes();
    assert |Encoding(m)| == |NumChunk(1, m.id)| + 2 + TextSize(|m.service|) + TextSize(|m.methodName|) + 3
      + TextSize(|m.error|);
  }

  /** What a refusal says: the request's own names, and one of them again in the error. */
  lemma RefusalRepeatsAName(request: RpcMessage, now: Text)
    requires Fits(request) && Refused(request)
    ensures var m := Reply(request, now);
      && m.id == request.id && m.kind == KIND_RESPONSE && m.status == 404 && m.payload == []
      && m.service == request.service && m.methodName == request.methodName
      && |m.error| == if request.service != DEMO_SERVICE then 17 + |request.service| else 16 + |request.methodName|
  {
    hide Encoding;
  }

  lemma TextSizes(field: nat, t: Text)
    requires field <= 7
    ensures |TextChunk(field, t)| == TextSize(|t|)
  {
  }

  lemma NumSizes()
    ensures |NumChunk(2, KIND_RESPONSE)| == 2 && |NumChunk(6, 404)| == 3 && NumChunk(6, 0) == []
  {
    assert VarintBytes(404) == [404 % 128 + 128] + VarintBytes(3);
  }

  /** A request that fits while its refusal does not: a two-mebibyte service name. */
  lemma RefusalCanOverflow(request: RpcMessage, now: Text)
    requires request == EMPTY.(kind := KIND_REQUEST, service := seq(0x20_0000, _ => 120))
    ensures Fits(request) && !Fits(Reply(request, now))
    ensures |request.service| == 0x20_0000
  {
    hide Decoding, NumChunk, VarintBytes;
    TextSizes(3, request.service);
    NumOne();
    assert request.service != DEMO_SERVICE;
    VarintAtMostFour(|request.service|);
    RefusalFitsIff(request, now);
  }

  lemma NumOne()
    ensures |NumChunk(2, KIND_REQUEST)| == 2 && NumChunk(6, 0) == [] && NumChunk(1, 0) == []
  {
  }

  lemma VarintAtMostFour(n: nat)
    requires n < 0x100_0000
    ensures 1 <= |VarintBytes(n)| <= 4
  {
    Pow2Values();
    Pow2Add(7, 7);
    Pow2Add(14, 14);
    VarintLength(n, 4);
  }
}
