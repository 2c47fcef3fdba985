/** The 4-byte big-endian length prefix (framing.hpp) and the receive side of a byte
    stream: popping frames off a growing buffer and decoding them. */
module Framing {
  import opened Bits
  import opened Codec
  import opened CodecTheorems
  import opened Seqs

  const MAX_FRAME: nat := 4 * 1024 * 1024
  const HEADER: nat := 4

  function EncodeFrameSize(size: uint32): (h: seq<byte>)
    ensures |h| == HEADER
  {
    [size / 0x100_0000, size / 0x1_0000 % 256, size / 0x100 % 256, size % 256]
  }

  /** Four bytes shifted into place and OR-ed together. */
  function DecodeFrameSize(h: seq<byte>): (size: uint32)
    requires |h| >= HEADER
    ensures var a: nat, b: nat, c: nat, d: nat := h[0], h[1], h[2], h[3];
      size == a * 0x100_0000 + b * 0x1_0000 + c * 0x100 + d
  {
    var a: nat, b: nat, c: nat, d: nat := h[0], h[1], h[2], h[3];
    OrOfBytes(a, b, c, d);
    BitOr(BitOr(BitOr(a * 0x100_0000, b * 0x1_0000), c * 0x100), d)
  }

  lemma OrOfBytes(a: nat, b: nat, c: nat, d: nat)
    requires b < 256 && c < 256 && d < 256
    ensures BitOr(BitOr(BitOr(a * 0x100_0000, b * 0x1_0000), c * 0x100), d)
         == a * 0x100_0000 + b * 0x1_0000 + c * 0x100 + d
  {
    OrAbove(a, b * 0x1_0000, 24, 0x100_0000);
    OrAbove(a * 256 + b, c * 0x100, 16, 0x1_0000);
    OrAbove(a * 0x1_0000 + b * 256 + c, d, 8, 0x100);
  }

  lemma OrAbove(hi: nat, lo: nat, s: nat, p: nat)
    requires (s, p) == (8, 0x100) || (s, p) == (16, 0x1_0000) || (s, p) == (24, 0x100_0000)
    requires lo < p
    ensures BitOr(hi * p, lo) == hi * p + lo
  {
    assert Pow2(8) == 0x100;
    Pow2Add(8, 8);
    Pow2Add(16, 8);
    OrIsSum(lo, hi, s);
    OrComm(lo, hi * p);
  }

  /** `make_frame`: the size is cast to 32 bits without a check. */
  function Frame(payload: seq<byte>): (f: seq<byte>)
    ensures |f| == HEADER + |payload|
  {
    EncodeFrameSize(|payload| % TWO32) + payload
  }

  datatype Popped = NeedMore | TooLarge | Popped(payload: seq<byte>, rest: seq<byte>)

  /** `try_pop_frame`: what it returns, and what it leaves in the buffer. */
  function Pop(buffer: seq<byte>): (p: Popped)
    ensures p.Popped? ==> |p.rest| < |buffer|
  {
    if |buffer| < HEADER then NeedMore
    else
      var size := DecodeFrameSize(buffer);
      if size > MAX_FRAME then TooLarge
      else if |buffer| < HEADER + size then NeedMore
      else Popped(buffer[HEADER..HEADER + size], buffer[HEADER + size..])
  }

  lemma DigitsOf(n: nat)
    requires n < TWO32
    ensures (n / 0x100_0000) * 0x100_0000 + (n / 0x1_0000 % 256) * 0x1_0000 + (n / 0x100 % 256) * 0x100 + n % 256 == n
  {
    var p, q := n / 0x1_0000, n / 0x100;
    assert p / 256 == n / 0x100_0000 && q / 256 == p;
    assert p == (n / 0x100_0000) * 256 + p % 256;
    assert q == p * 256 + q % 256;
  }

  lemma FrameSizeRoundTrip(n: uint32, rest: seq<byte>)
    ensures DecodeFrameSize(EncodeFrameSize(n) + rest) == n
  {
    hide DecodeFrameSize;
    DigitsOf(n);
  }

  lemma FrameSizeCanonical(h: seq<byte>)
    requires |h| >= HEADER
    ensures EncodeFrameSize(DecodeFrameSize(h)) == h[..HEADER]
  {
    hide DecodeFrameSize;
    var size := DecodeFrameSize(h);
    Digits(size, h[0], h[1], h[2], h[3]);
  }

  lemma Digits(size: nat, a: byte, b: byte, c: byte, d: byte)
    requires size == a * 0x100_0000 + b * 0x1_0000 + c * 0x100 + d
    ensures size / 0x100_0000 == a && size / 0x1_0000 % 256 == b && size / 0x100 % 256 == c && size % 256 == d
  {
    assert size / 0x100 == a * 0x1_0000 + b * 0x100 + c;
    assert size / 0x1_0000 == a * 0x100 + b;
  }

  /** A whole frame in front of anything pops to its payload and leaves the rest. */
  lemma PopFrame(payload: seq<byte>, rest: seq<byte>)
    requires |payload| <= MAX_FRAME
    ensures Pop(Frame(payload) + rest) == Popped(payload, rest)
  {
    hide DecodeFrameSize, EncodeFrameSize;
    var b := Frame(payload) + rest;
    assert b == EncodeFrameSize(|payload|) + (payload + rest);
    FrameSizeRoundTrip(|payload|, payload + rest);
    assert b[HEADER..HEADER + |payload|] == payload;
  }

  /** `make_frame` casts the size unchecked, so a frame pops to its payload exactly when the
      payload is within the limit: the guard in `send`. */
  lemma FramePopsIff(payload: seq<byte>, rest: seq<byte>)
    ensures Pop(Frame(payload) + rest) == Popped(payload, rest) <==> |payload| <= MAX_FRAME
  {
    if |payload| <= MAX_FRAME {
      PopFrame(payload, rest);
    } else if Pop(Frame(payload) + rest).Popped? {
      PopIsFrame(Frame(payload) + rest);
    }
  }

  /** No proper prefix of a frame pops. */
  lemma PopPartial(payload: seq<byte>, k: nat)
    requires |payload| <= MAX_FRAME && k < |Frame(payload)|
    ensures Pop(Frame(payload)[..k]) == NeedMore
  {
    hide DecodeFrameSize, EncodeFrameSize;
    if k >= HEADER {
      assert Frame(payload)[..k] == EncodeFrameSize(|payload|) + payload[..k - HEADER];
      FrameSizeRoundTrip(|payload|, payload[..k - HEADER]);
    }
  }

  /** Popping is the inverse of framing: what pops is a frame within the limit. */
  lemma PopIsFrame(buffer: seq<byte>)
    requires Pop(buffer).Popped?
    ensures |Pop(buffer).payload| <= MAX_FRAME
    ensures buffer == Frame(Pop(buffer).payload) + Pop(buffer).rest
  {
    hide DecodeFrameSize, EncodeFrameSize;
    FrameSizeCanonical(buffer);
    var size := DecodeFrameSize(buffer);
    var payload := Pop(buffer).payload;
    assert |payload| == size && |payload| % TWO32 == size;
    hide Pop;
    assert buffer == buffer[..HEADER] + buffer[HEADER..HEADER + size] + buffer[HEADER + size..];
  }

  /** An oversized frame is refused as soon as its header is there, and nothing else is. */
  lemma OversizedIsRefusedAtOnce(n: uint32, rest: seq<byte>)
    ensures Pop(EncodeFrameSize(n) + rest) == TooLarge <==> n > MAX_FRAME
    ensures forall k :: 0 <= k < HEADER ==> Pop(EncodeFrameSize(n)[..k]) == NeedMore
  {
    hide DecodeFrameSize, EncodeFrameSize;
    FrameSizeRoundTrip(n, rest);
  }

  /** More bytes behind never change a decision already made. */
  lemma PopExtends(a: seq<byte>, b: seq<byte>)
    ensures Pop(a).TooLarge? ==> Pop(a + b).TooLarge?
    ensures Pop(a).Popped? ==> Pop(a + b) == Popped(Pop(a).payload, Pop(a).rest + b)
  {
    if |a| >= HEADER {
      assert DecodeFrameSize(a + b) == DecodeFrameSize(a);
      var size := DecodeFrameSize(a);
      if |a| >= HEADER + size {
        assert (a + b)[HEADER..HEADER + size] == a[HEADER..HEADER + size];
        assert (a + b)[HEADER + size..] == a[HEADER + size..] + b;
      }
    }
  }

  // ------------------------------------------------------------- draining a buffer

  datatype Outcome = Fine | FrameTooLarge | BadMessage

  datatype Drained = Drained(messages: seq<RpcMessage>, rest: seq<byte>, outcome: Outcome)

  function Prepend(m: RpcMessage, d: Drained): Drained { d.(messages := [m] + d.messages) }

  /** The second loop of `async_read`: pop and decode until a frame is incomplete, too
      large, or does not decode. */
  function Drain(buffer: seq<byte>): Drained
    decreases |buffer|
  {
    match Pop(buffer)
    case NeedMore => Drained([], buffer, Fine)
    case TooLarge => Drained([], buffer, FrameTooLarge)
    case Popped(payload, rest) =>
      match Decoding(payload)
      case None => Drained([], rest, BadMessage)
      case Some(m) => Prepend(m, Drain(rest))
  }

  /** Draining `a`, then `b` behind what was left. */
  function Continue(d: Drained, b: seq<byte>): Drained
  {
    if d.outcome != Fine then d.(rest := d.rest + b)
    else
      var e := Drain(d.rest + b);
      Drained(d.messages + e.messages, e.rest, e.outcome)
  }

  lemma ContinuePrepends(m: RpcMessage, d: Drained, b: seq<byte>)
    ensures Continue(Prepend(m, d), b) == Prepend(m, Continue(d, b))
  {
    hide Drain;
    var e := Drain(d.rest + b);
    assert [m] + (d.messages + e.messages) == ([m] + d.messages) + e.messages;
  }

  lemma {:induction false} DrainAppend(a: seq<byte>, b: seq<byte>)
    ensures Drain(a + b) == Continue(Drain(a), b)
    decreases |a|
  {
    hide Decoding, Pop, Prepend;
    PopExtends(a, b);
    match Pop(a)
    case NeedMore => assert Continue(Drain(a), b) == Drain(a + b).(messages := [] + Drain(a + b).messages);
    case TooLarge =>
    case Popped(payload, rest) =>
      match Decoding(payload) {
        case None =>
        case Some(m) =>
          DrainAppend(rest, b);
          ContinuePrepends(m, Drain(rest), b);
      }
  }

  /** What is left while all is fine holds no complete frame. */
  lemma {:induction false} DrainLeavesNoFrame(a: seq<byte>)
    ensures Drain(a).outcome == Fine ==> Pop(Drain(a).rest) == NeedMore
    decreases |a|
  {
    match Pop(a)
    case NeedMore =>
    case TooLarge =>
    case Popped(payload, rest) => DrainLeavesNoFrame(rest);
  }

  /** Draining after every chunk, stopping at the first failure. */
  function DrainChunks(chunks: seq<seq<byte>>): Drained
  {
    if chunks == [] then Drained([], [], Fine)
    else Continue(DrainChunks(chunks[..|chunks| - 1]), chunks[|chunks| - 1])
  }

  lemma DrainNothing()
    ensures Drain([]) == Drained([], [], Fine)
  {
  }

  /** Chunk independence: however the bytes are split, the messages, the outcome and the
      leftover are those of draining them all at once. */
  lemma {:induction false} ChunksDoNotMatter(chunks: seq<seq<byte>>)
    ensures DrainChunks(chunks) == Drain(Flatten(chunks))
  {
    hide Drain, Continue;
    if chunks == [] {
      DrainNothing();
    } else {
      var init, last := chunks[..|chunks| - 1], chunks[|chunks| - 1];
      ChunksDoNotMatter(init);
      assert chunks == init + [last];
      FlattenSnoc(init, last);
      DrainAppend(Flatten(init), last);
    }
  }

  // -------------------------------------------------- a stream of framed messages

  predicate Fits(m: RpcMessage) { |Encoding(m)| <= MAX_FRAME }

  predicate AllFit(ms: seq<RpcMessage>) { forall m <- ms :: Fits(m) }

  /** The bytes of a sequence of messages on the wire. */
  function Stream(ms: seq<RpcMessage>): seq<byte>
  {
    if ms == [] then [] else Stream(ms[..|ms| - 1]) + Frame(Encoding(ms[|ms| - 1]))
  }

  lemma {:induction false} StreamConcat(a: seq<RpcMessage>, b: seq<RpcMessage>)
    ensures Stream(a + b) == Stream(a) + Stream(b)
    decreases |b|
  {
    hide Frame, Encoding;
    if b == [] {
      assert a + b == a;
    } else {
      var init, last := b[..|b| - 1], b[|b| - 1];
      assert (a + b)[..|a + b| - 1] == a + init;
      StreamConcat(a, init);
    }
  }

  lemma StreamHead(ms: seq<RpcMessage>)
    requires ms != []
    ensures Stream(ms) == Frame(Encoding(ms[0])) + Stream(ms[1..])
  {
    hide Frame, Encoding;
    assert ms == [ms[0]] + ms[1..];
    StreamConcat([ms[0]], ms[1..]);
    assert Stream([ms[0]]) == Stream([ms[0]][..0]) + Frame(Encoding(ms[0]));
  }

  /** The messages up to the first one whose status cannot be decoded. */
  function Decodable(ms: seq<RpcMessage>): (r: seq<RpcMessage>)
    ensures r <= ms
    ensures r == ms <==> forall m <- ms :: m.status >= 0
  {
    if ms == [] || ms[0].status < 0 then [] else [ms[0]] + Decodable(ms[1..])
  }

  /** Draining a stream that starts with a whole message. */
  lemma DrainFirst(m: RpcMessage, rest: seq<byte>)
    requires Fits(m)
    ensures Drain(Frame(Encoding(m)) + rest) ==
      if m.status >= 0 then Prepend(m, Drain(rest)) else Drained([], rest, BadMessage)
  {
    PopFrame(Encoding(m), rest);
    RoundTrip(m);
    hide Encoding, Decoding, Frame, Pop;
  }

  lemma DrainPart(m: RpcMessage, k: nat)
    requires Fits(m) && k < |Frame(Encoding(m))|
    ensures var s := Frame(Encoding(m))[..k]; Drain(s) == Drained([], s, Fine)
  {
    PopPartial(Encoding(m), k);
    hide Encoding, Frame, Pop;
  }

  lemma PrefixCons<T>(x: T, a: seq<T>, b: seq<T>)
    requires a <= b
    ensures [x] + a <= [x] + b
  {
  }

  /** Draining any prefix of a stream of framed messages gives a prefix of the messages, up
      to the first with a negative status; draining all of it without failure gives all of
      them and leaves nothing. */
  lemma {:induction false} DrainStream(ms: seq<RpcMessage>, s: seq<byte>)
    requires AllFit(ms) && s <= Stream(ms)
    ensures Drain(s).messages <= Decodable(ms)
    ensures s == Stream(ms) && Drain(s).outcome == Fine ==>
      Drain(s).messages == ms && Drain(s).rest == []
    decreases |ms|
  {
    hide Encoding, Frame, Drain, Fits;
    if ms == [] {
      DrainNothing();
    } else {
      StreamHead(ms);
      var m, tail := ms[0], Stream(ms[1..]);
      var f := Frame(Encoding(m));
      hide Stream;
      assert Fits(m);
      if |s| < |f| {
        assert s == f[..|s|];
        DrainPart(m, |s|);
      } else {
        var rest := s[|f|..];
        assert s == f + rest && rest == tail[..|rest|];
        DrainFirst(m, rest);
        if m.status >= 0 {
          DrainStream(ms[1..], rest);
          PrefixCons(m, Drain(rest).messages, Decodable(ms[1..]));
        }
      }
    }
  }

  /** If every status can be decoded, no prefix of the stream makes the receiver fail. */
  lemma {:induction false} DrainStreamIsFine(ms: seq<RpcMessage>, s: seq<byte>)
    requires AllFit(ms) && s <= Stream(ms)
    requires forall m <- ms :: m.status >= 0
    ensures Drain(s).outcome == Fine
    decreases |ms|
  {
    hide Encoding, Frame, Drain, Fits;
    if ms == [] {
      DrainNothing();
    } else {
      StreamHead(ms);
      var m, tail := ms[0], Stream(ms[1..]);
      var f := Frame(Encoding(m));
      hide Stream;
      assert Fits(m);
      if |s| < |f| {
        assert s == f[..|s|];
        DrainPart(m, |s|);
      } else {
        var rest := s[|f|..];
        assert s == f + rest && rest == tail[..|rest|];
        DrainFirst(m, rest);
        DrainStreamIsFine(ms[1..], rest);
      }
    }
  }
}
