/** Base-128 varints (`write_varint` and `read_varint` of protobuf_wire.cpp). */
module Varint {
  import opened Bits
  import opened Seqs

  /** The canonical bytes of a value: seven bits a byte, least significant first. */
  function VarintBytes(v: nat): (r: seq<byte>)
    ensures |r| > 0
  {
    if v < 128 then [v] else [v % 128 + 128] + VarintBytes(v / 128)
  }

  /** What a byte string means as base-128 digits, whatever its continuation bits. */
  function Base128(s: seq<byte>): nat
  {
    if s == [] then 0 else s[0] % 128 + 128 * Base128(s[1..])
  }

  /** How many bytes the varint at the front of `s` has: the position just after the
      first byte without a continuation bit among the first `limit`, or 0 if none. */
  function Stop(s: seq<byte>, limit: nat): (n: nat)
    ensures n <= |s| && n <= limit
    ensures n > 0 ==> s[n - 1] < 128 && forall i :: 0 <= i < n - 1 ==> s[i] >= 128
    ensures n == 0 ==> forall i :: 0 <= i < |s| && i < limit ==> s[i] >= 128
  {
    if s == [] || limit == 0 then 0
    else if s[0] < 128 then 1
    else
      var n := Stop(s[1..], limit - 1);
      assert n == 0 ==> forall i :: 1 <= i < |s| && i < limit ==> s[i] == s[1..][i - 1] >= 128;
      if n == 0 then 0 else n + 1
  }

  datatype Reading = NoVarint | Varint(value: uint64, used: nat)

  const MAX_VARINT: nat := 10

  /** What reading a varint at the front of `s` gives: ten bytes at most, and the
      base-128 sum of the digits modulo 2^64. */
  function Read(s: seq<byte>): (r: Reading)
    ensures r.Varint? ==> 0 < r.used <= |s| && r.used <= MAX_VARINT
  {
    var n := Stop(s, MAX_VARINT);
    if n == 0 then NoVarint else Varint(Base128(s[..n]) % TWO64, n)
  }

  method WriteVarint(out: seq<byte>, value: uint64) returns (res: seq<byte>)
    ensures res == out + VarintBytes(value)
  {
    res := out;
    var v := value;
    while v >= 0x80
      invariant 0 <= v < TWO64
      invariant res + VarintBytes(v) == out + VarintBytes(value)
    {
      OrIsSum(v % 128, 1, 7);
      assert Pow2(7) == 128;
      assert VarintBytes(v) == [v % 128 + 128] + VarintBytes(v / 128);
      res := res + [BitOr(v % 128, 0x80)];
      v := v / 128;
    }
    res := res + [v];
  }

  lemma {:induction false} Base128Snoc(s: seq<byte>, b: byte)
    ensures Base128(s + [b]) == Base128(s) + (b % 128) * Pow2(7 * |s|)
  {
    if s == [] {
      assert s + [b] == [b];
      assert Base128([b]) == b % 128 + 128 * Base128([b][1..]);
    } else {
      assert (s + [b])[1..] == s[1..] + [b];
      Base128Snoc(s[1..], b);
      Pow2Step(|s| - 1);
      var p := Pow2(7 * (|s| - 1));
      assert 128 * ((b % 128) * p) == (b % 128) * (128 * p);
    }
  }

  lemma Pow2Step(k: nat)
    ensures Pow2(7 * (k + 1)) == 128 * Pow2(7 * k)
  {
    Pow2Add(7, 7 * k);
    assert Pow2(7) == 128;
  }

  lemma {:induction false} Base128Bound(s: seq<byte>)
    ensures Base128(s) < Pow2(7 * |s|)
  {
    if s != [] {
      Base128Bound(s[1..]);
      Pow2Step(|s| - 1);
    }
  }

  /** A position whose byte ends a varint, after continuation bytes only, is the stop. */
  lemma {:induction false} StopAt(s: seq<byte>, n: nat, limit: nat)
    requires 0 < n <= |s| && n <= limit
    requires s[n - 1] < 128 && forall i :: 0 <= i < n - 1 ==> s[i] >= 128
    ensures Stop(s, limit) == n
  {
    if n > 1 {
      assert s[0] >= 128;
      StopAt(s[1..], n - 1, limit - 1);
    }
  }

  /** One step of the reader: OR-ing in the next seven bits extends the base-128 sum,
      exactly for the first nine bytes and modulo 2^64 for the tenth. */
  lemma ReadStep(digits: seq<byte>, b: byte)
    requires |digits| <= 9
    ensures Base128(digits) < TWO64
    ensures BitOr(Base128(digits), Shl64(b % 128, 7 * |digits|)) == Base128(digits + [b]) % TWO64
    ensures |digits| <= 8 ==> Base128(digits + [b]) < TWO64
  {
    hide BitOr, Shl64, Base128, Pow2;
    Base128Bound(digits);
    Pow2Monotone(7 * |digits|, 63);
    Pow2Values();
    Base128Snoc(digits, b);
    ShiftOr(Base128(digits), b % 128, 7 * |digits|);
    if |digits| <= 8 {
      Base128Bound(digits + [b]);
      Pow2Monotone(7 * (|digits| + 1), 63);
    }
  }

  lemma {:induction false} Pow2Monotone(a: nat, b: nat)
    requires a <= b
    ensures Pow2(a) <= Pow2(b)
    decreases b
  {
    if a < b { Pow2Monotone(a, b - 1); }
  }

  /** The reader's loop, with the source's OR and shift. */
  method ReadVarint(bytes: seq<byte>, start: nat) returns (ok: bool, pos: nat, value: uint64)
    requires start <= |bytes|
    ensures start <= pos <= |bytes|
    ensures ok == Read(bytes[start..]).Varint?
    ensures ok ==> Read(bytes[start..]) == Varint(value, pos - start)
  {
    hide BitOr, Shl64, Pow2;
    pos, value := start, 0;
    var shift := 0;
    while pos < |bytes| && shift <= 63
      invariant start <= pos <= |bytes|
      invariant shift == 7 * (pos - start) <= 70
      invariant forall i :: start <= i < pos ==> bytes[i] >= 128
      invariant shift <= 63 ==> value == Base128(bytes[start..pos])
    {
      ghost var digits := bytes[start..pos];
      var b := bytes[pos];
      pos := pos + 1;
      ReadStep(digits, b);
      value := BitOr(value, Shl64(b % 128, shift));
      assert bytes[start..pos] == digits + [b];
      if b < 128 {
        DropThenTake(bytes, start, pos);
        StopAt(bytes[start..], pos - start, MAX_VARINT);
        return true, pos, value;
      }
      shift := shift + 7;
    }
    assert Stop(bytes[start..], MAX_VARINT) == 0;
    ok := false;
  }

  lemma {:induction false} CanonicalShape(v: nat)
    ensures var c := VarintBytes(v);
      && Base128(c) == v && c[|c| - 1] < 128
      && forall i :: 0 <= i < |c| - 1 ==> c[i] >= 128
  {
    var c := VarintBytes(v);
    if v < 128 {
      assert Base128(c) == c[0] % 128 + 128 * Base128(c[1..]);
    } else {
      CanonicalShape(v / 128);
      assert c[1..] == VarintBytes(v / 128);
      forall i | 0 <= i < |c| - 1 ensures c[i] >= 128 {
        if i > 0 { assert c[i] == c[1..][i - 1]; }
      }
    }
  }

  /** A value below 128^k needs at most k bytes. */
  lemma {:induction false} VarintLength(v: nat, k: nat)
    requires k > 0 && v < Pow2(7 * k)
    ensures |VarintBytes(v)| <= k
  {
    if v >= 128 {
      assert Pow2(7) == 128;
      Pow2Step(k - 1);
      VarintLength(v / 128, k - 1);
    }
  }

  lemma {:induction false} VarintMonotone(a: nat, b: nat)
    requires a <= b
    ensures |VarintBytes(a)| <= |VarintBytes(b)|
  {
    if a >= 128 {
      VarintMonotone(a / 128, b / 128);
    }
  }

  lemma Uint64Length(v: uint64)
    ensures 1 <= |VarintBytes(v)| <= MAX_VARINT
  {
    Pow2Values();
    Pow2Add(64, 6);
    VarintLength(v, MAX_VARINT);
  }

  /** Reading back what was written, before any suffix, gives the value and the end. */
  lemma ReadWritten(v: uint64, rest: seq<byte>)
    ensures Read(VarintBytes(v) + rest) == Varint(v, |VarintBytes(v)|)
  {
    var c := VarintBytes(v);
    CanonicalShape(v);
    Uint64Length(v);
    StopAt(c + rest, |c|, MAX_VARINT);
    assert (c + rest)[..|c|] == c;
  }

  /** No byte string that reads as a value is shorter than the bytes written for it. */
  lemma WrittenIsShortest(s: seq<byte>)
    requires Read(s).Varint?
    ensures |VarintBytes(Read(s).value)| <= Read(s).used
  {
    var n := Read(s).used;
    Base128Bound(s[..n]);
    VarintLength(Read(s).value, n);
  }

  /** A reading depends only on the bytes it consumes. */
  lemma ReadAgree(s: seq<byte>, t: seq<byte>)
    requires Read(s).Varint? && Read(s).used <= |t|
    requires s[..Read(s).used] == t[..Read(s).used]
    ensures Read(t) == Read(s)
  {
    var n := Read(s).used;
    forall i | 0 <= i < n ensures s[i] == t[i] {
      assert s[..n][i] == t[..n][i];
    }
    StopAt(t, n, MAX_VARINT);
  }
}
