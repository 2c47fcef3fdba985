/** The first-stage sum reduction of reduction.cu: every block reads up to two elements a
    thread, reduces in shared memory down to a warp, and finishes with unrolled lockstep
    steps; and the partial sums it leaves. */
module Reduction {
  import opened Folds
  import opened Bits
  import opened Wrappers

  /** The element at `i`, or nothing to add past the end. */
  function Read(x: seq<real>, i: nat): real { if i < |x| then x[i] else 0.0 }

  /** Where block `b`'s elements start. */
  function Start(block: nat, b: nat): nat { b * block * 2 }

  /** What thread `tid` of the block starting at `lo` puts in shared memory. */
  function Loaded(x: seq<real>, block: nat, lo: nat): (s: seq<real>)
    ensures |s| == block
    ensures forall tid :: 0 <= tid < block ==> s[tid] == Read(x, lo + tid) + Read(x, lo + tid + block)
  {
    seq(block, tid requires 0 <= tid => Read(x, lo + tid) + Read(x, lo + tid + block))
  }

  function Clip(x: seq<real>, i: nat): (j: nat)
    ensures j <= |x|
  {
    if i <= |x| then i else |x|
  }

  /** The elements the block starting at `lo` is responsible for. */
  function Slice(x: seq<real>, block: nat, lo: nat): seq<real>
  {
    x[Clip(x, lo)..Clip(x, lo + 2 * block)]
  }

  /** Two reads a thread cover the block's slice: its sum is what was loaded. */
  lemma LoadedSum(x: seq<real>, block: nat, lo: nat)
    requires block > 0
    ensures Sum(Loaded(x, block, lo)) == Sum(Slice(x, block, lo))
  {
    hide Monoid, Fold, Slice;
    AddMonoid();
    var first := seq(block, tid requires 0 <= tid => Read(x, lo + tid));
    var second := seq(block, tid requires 0 <= tid => Read(x, lo + tid + block));
    FoldZip(Add, 0.0, first, second, Loaded(x, block, lo));
    FoldConcat(Add, 0.0, first, second);
    var all, s := first + second, Slice(x, block, lo);
    SliceLength(x, block, lo);
    forall i | 0 <= i < |all| ensures all[i] == if i < |s| then s[i] else 0.0 {
      assert all[i] == Read(x, lo + i);
      SliceReads(x, block, lo, i);
    }
    FoldPadded(Add, 0.0, Slice(x, block, lo), first + second);
  }

  lemma SliceLength(x: seq<real>, block: nat, lo: nat)
    ensures |Slice(x, block, lo)| <= 2 * block
  {
  }

  lemma SliceReads(x: seq<real>, block: nat, lo: nat, i: nat)
    requires i < 2 * block
    ensures var s := Slice(x, block, lo); Read(x, lo + i) == if i < |s| then s[i] else 0.0
  {
  }

  /** Lane `tid` exists in a block, and reads shared cell `tid + offset`. */
  predicate LaneReads(block: nat, tid: int, offset: int, cell: int)
  {
    0 <= tid < 32 && tid < block && offset in {32, 16, 8, 4, 2, 1} && cell == tid + offset
  }

  /** The unrolled steps of the last warp stay within the block's shared array exactly when
      the block has at least 64 threads. */
  lemma LastWarpInBoundsIff(block: nat)
    requires block > 0
    ensures (forall tid, offset, cell :: LaneReads(block, tid, offset, cell) ==> cell < block) <==> block >= 64
  {
    if block < 64 {
      var tid := if block <= 32 then 0 else 31;
      assert LaneReads(block, tid, 32, tid + 32);
    }
  }

  /** One unrolled step of the last warp: its lanes in lockstep, each reading what the others
      had before the step. Lanes from `offset` up compute values no later step uses. `ok` is
      false, and nothing is done, when some lane's read would be past the shared array. */
  method WarpStep(smem: array<real>, offset: nat) returns (ok: bool)
    requires smem.Length > 0 && offset in {32, 16, 8, 4, 2, 1}
    modifies smem
    ensures ok <==> forall tid, cell :: LaneReads(smem.Length, tid, offset, cell) ==> cell < smem.Length
    ensures smem.Length >= 64 ==> ok && Sum(smem[..offset]) == old(Sum(smem[..2 * offset]))
  {
    hide Sum;
    var lanes := if smem.Length < 32 then smem.Length else 32;
    assert LaneReads(smem.Length, lanes - 1, offset, lanes - 1 + offset);
    if lanes - 1 + offset >= smem.Length {
      return false;
    }
    ghost var before := smem[..];
    forall tid | 0 <= tid < lanes {
      smem[tid] := smem[tid] + smem[tid + offset];
    }
    ok := true;
    if smem.Length >= 64 {
      HalvingSum(before, smem[..], offset);
      assert before[..2 * offset] == old(smem[..2 * offset]);
      assert smem[..][..offset] == smem[..offset];
    }
  }

  /** The loads of one block, one thread after another: each writes its own cell. */
  method LoadBlock(x: seq<real>, smem: array<real>, lo: nat)
    modifies smem
    ensures smem[..] == Loaded(x, smem.Length, lo)
  {
    var block := smem.Length;
    for tid := 0 to block
      invariant forall t :: 0 <= t < tid ==> smem[t] == Loaded(x, block, lo)[t]
    {
      var global := lo + tid;
      var sum := 0.0;
      if global < |x| { sum := sum + x[global]; }
      if global + block < |x| { sum := sum + x[global + block]; }
      smem[tid] := sum;
    }
  }

  /** One pass of the shared-memory loop: the first `stride` cells take in the next. */
  function Pass(s: seq<real>, stride: nat): (t: seq<real>)
    requires 2 * stride <= |s|
    ensures |t| == |s|
    ensures forall i :: 0 <= i < |s| ==> t[i] == if i < stride then s[i] + s[i + stride] else s[i]
  {
    seq(|s|, i requires 0 <= i < |s| => if i < stride then s[i] + s[i + stride] else s[i])
  }

  /** The cells after the loop, of which the first `width` still matter before it. */
  function Halve(s: seq<real>, width: nat): (t: seq<real>)
    requires width <= |s|
    ensures |t| == |s|
    decreases width
  {
    if width / 2 <= 32 then s else Halve(Pass(s, width / 2), width / 2)
  }

  /** What a block makes of the cells it loaded: the loop, then the last 64 cells. */
  function BlockSum(s: seq<real>): real
    requires |s| >= 64
  {
    Sum(Halve(s, |s|)[..64])
  }

  /** The shared-memory loop, which stops at a stride of 32. Each pass is one barrier phase. */
  method HalveTo64(smem: array<real>)
    modifies smem
    ensures smem[..] == Halve(old(smem[..]), smem.Length)
  {
    var stride := smem.Length / 2;
    ghost var width: nat := smem.Length;
    while stride > 32
      invariant width <= smem.Length && stride == width / 2
      invariant Halve(smem[..], width) == Halve(old(smem[..]), smem.Length)
      decreases stride
    {
      ghost var before := smem[..];
      forall tid | 0 <= tid < stride {
        smem[tid] := smem[tid] + smem[tid + stride];
      }
      assert smem[..] == Pass(before, stride);
      width := stride;
      stride := stride / 2;
    }
  }

  /** On a power of two of cells the loop keeps the sum. */
  lemma {:induction false} HalveKeepsSum(s: seq<real>, width: nat)
    requires 64 <= width <= |s| && PowerOfTwo(width)
    ensures Sum(Halve(s, width)[..64]) == Sum(s[..width])
    decreases width
  {
    hide Sum;
    assert PowerOfTwo(32);
    var h := width / 2;
    BetweenPowers(width, 32);
    BetweenPowers(h, 32);
    if h > 32 {
      HalvingSum(s, Pass(s, h), h);
      HalveKeepsSum(Pass(s, h), h);
    }
  }

  // --------------------------------------------- block sizes that are no power of two

  /** One at index `j`, zero elsewhere. */
  function Unit(n: nat, j: nat): (s: seq<real>)
    ensures |s| == n && forall i :: 0 <= i < n ==> s[i] == if i == j then 1.0 else 0.0
  {
    seq(n, i => if i == j then 1.0 else 0.0)
  }

  lemma {:induction false} UnitSum(n: nat, j: nat, m: nat)
    requires m <= n
    ensures Sum(Unit(n, j)[..m]) == if j < m then 1.0 else 0.0
    decreases m
  {
    hide Sum;
    SumCons([]);
    if m > 0 {
      UnitSum(n, j, m - 1);
      assert Unit(n, j)[..m] == Unit(n, j)[..m - 1] + [Unit(n, j)[m - 1]];
      SumSnoc(Unit(n, j)[..m - 1], Unit(n, j)[m - 1]);
    }
  }

  /** A cell past the width is never read again. */
  lemma {:induction false} UnitUntouched(n: nat, j: nat, width: nat)
    requires width <= n && j >= width
    ensures Halve(Unit(n, j), width) == Unit(n, j)
    decreases width
  {
    var h := width / 2;
    if h > 32 {
      assert Pass(Unit(n, j), h) == Unit(n, j);
      UnitUntouched(n, j, h);
    }
  }

  /** An element the block loses or counts twice: the last cell of an odd width is lost, and
      when the width falls below 64 a cell already taken in is read again by the warp. */
  lemma {:induction false} WrongElement(n: nat, width: nat) returns (j: nat)
    requires 64 <= width <= n && !PowerOfTwo(width)
    ensures j < width && Sum(Halve(Unit(n, j), width)[..64]) != 1.0
    decreases width
  {
    hide Sum;
    assert PowerOfTwo(64);
    var h := width / 2;
    if width % 2 == 1 {
      j := width - 1;
      if h > 32 {
        assert Pass(Unit(n, j), h) == Unit(n, j);
        UnitUntouched(n, j, h);
      }
      UnitSum(n, j, 64);
    } else if h < 64 {
      j := h;
      ReadTwice(n, h);
    } else {
      j := WrongElement(n, h);
      assert Pass(Unit(n, j), h) == Unit(n, j);
    }
  }

  lemma ReadTwice(n: nat, h: nat)
    requires 32 < h < 64 && 2 * h <= n && 64 <= n
    ensures Sum(Halve(Unit(n, h), 2 * h)[..64]) == 2.0
  {
    hide Sum;
    var t := Pass(Unit(n, h), h);
    assert Halve(Unit(n, h), 2 * h) == t;
    assert t[..64] == [1.0] + Unit(n, h)[..64][1..];
    SumCons(t[..64]);
    SumCons(Unit(n, h)[..64]);
    UnitSum(n, h, 64);
    assert t[..64][1..] == Unit(n, h)[..64][1..];
  }

  /** A block sums what it loaded, for all inputs, exactly when its size is a power of two. */
  lemma BlockIsExactIff(n: nat)
    requires n >= 64
    ensures PowerOfTwo(n) <==> forall s: seq<real> :: |s| == n ==> BlockSum(s) == Sum(s)
  {
    hide Sum;
    if PowerOfTwo(n) {
      forall s: seq<real> | |s| == n ensures BlockSum(s) == Sum(s) {
        HalveKeepsSum(s, n);
        assert s[..n] == s;
      }
    } else {
      var j := WrongElement(n, n);
      UnitSum(n, j, n);
      assert Unit(n, j)[..n] == Unit(n, j);
      assert BlockSum(Unit(n, j)) != Sum(Unit(n, j));
    }
  }

  /** The six unrolled steps, stopping at the first read out of bounds. */
  method LastWarp(smem: array<real>) returns (ok: bool)
    requires smem.Length > 0
    modifies smem
    ensures ok <==> smem.Length >= 64
    ensures ok ==> smem[0] == old(Sum(smem[..64]))
  {
    hide Sum, LaneReads;
    FirstStepDecides(smem.Length);
    ok := WarpStep(smem, 32);
    if !ok {
      return;
    }
    LaterSteps(smem);
    assert smem[..1] == [smem[0]];
    SumOne(smem[0]);
  }

  /** The steps after the first, none of which reads further than it. */
  method LaterSteps(smem: array<real>)
    requires smem.Length >= 64
    modifies smem
    ensures Sum(smem[..1]) == old(Sum(smem[..32]))
  {
    hide Sum, LaneReads;
    var ok := WarpStep(smem, 16);
    ok := WarpStep(smem, 8);
    ok := WarpStep(smem, 4);
    ok := WarpStep(smem, 2);
    ok := WarpStep(smem, 1);
  }

  lemma FirstStepDecides(block: nat)
    requires block > 0
    ensures (forall tid, cell :: LaneReads(block, tid, 32, cell) ==> cell < block) <==> block >= 64
  {
    if block < 64 {
      var tid := if block <= 32 then 0 else 31;
      assert LaneReads(block, tid, 32, tid + 32);
    }
  }

  /** One block: load, loop, unrolled warp steps, thread 0's cell; None when the last warp
      would read past the shared array. */
  method ReduceBlock(x: seq<real>, block: nat, lo: nat) returns (partial: Option<real>)
    requires block > 0
    ensures partial.Some? <==> block >= 64
    ensures block >= 64 ==> partial == Some(BlockSum(Loaded(x, block, lo)))
    ensures block >= 64 && PowerOfTwo(block) ==> partial == Some(Sum(Slice(x, block, lo)))
  {
    hide Sum, Halve, Slice;
    var smem := new real[block](_ => 0.0);
    LoadBlock(x, smem, lo);
    ghost var loaded := smem[..];
    HalveTo64(smem);
    ghost var halved := smem[..];
    var ok := LastWarp(smem);
    if !ok {
      return None;
    }
    assert halved[..64] == Halve(loaded, block)[..64];
    partial := Some(smem[0]);
    LoadedSum(x, block, lo);
    BlockIsExactIff(block);
  }

  /** The number of blocks launched. */
  function GridSize(n: nat, block: nat): nat
    requires block > 0
  {
    (n + block * 2 - 1) / (block * 2)
  }

  lemma GridCovers(n: nat, block: nat)
    requires block > 0
    ensures n <= Start(block, GridSize(n, block)) < n + block * 2
  {
    var d, g := block * 2, GridSize(n, block);
    assert n + d - 1 == g * d + (n + d - 1) % d;
    MulAssociates(g, block, 2);
  }

  lemma NextStart(block: nat, b: nat)
    ensures Start(block, b + 1) == Start(block, b) + 2 * block
  {
    Distribute(b, 1, block);
  }

  /** The slices of consecutive blocks, laid end to end, are the input's first elements. */
  lemma SliceAppends(x: seq<real>, block: nat, lo: nat)
    ensures x[..Clip(x, lo + 2 * block)] == x[..Clip(x, lo)] + Slice(x, block, lo)
  {
  }

  /** The whole stage, for any block size: None when a block reads past its shared array,
      else a partial for every block, which for a power of two is its slice's sum; and then
      the partials together sum to the input. */
  method ReduceStage1(x: seq<real>, block: nat) returns (partial: Option<seq<real>>)
    requires block > 0
    ensures partial.Some? <==> block >= 64 || x == []
    ensures partial.Some? ==> |partial.value| == GridSize(|x|, block)
    ensures block >= 64 ==> forall b :: 0 <= b < |partial.value| ==>
      partial.value[b] == BlockSum(Loaded(x, block, Start(block, b)))
    ensures block >= 64 && PowerOfTwo(block) ==> Sum(partial.value) == Sum(x)
  {
    hide Sum, Slice, Start, GridSize, BlockSum;
    var grid := GridSize(|x|, block);
    GridEmptyIff(|x|, block);
    var done: seq<real> := [];
    StartZero(block);
    SumCons([]);
    for b := 0 to grid
      invariant |done| == b && (b > 0 ==> block >= 64)
      invariant block >= 64 ==> forall i :: 0 <= i < b ==> done[i] == BlockSum(Loaded(x, block, Start(block, i)))
      invariant block >= 64 && PowerOfTwo(block) ==> Sum(done) == Sum(x[..Clip(x, Start(block, b))])
    {
      var lo := Start(block, b);
      var p := ReduceBlock(x, block, lo);
      if p == None {
        return None;
      }
      SumSnoc(done, p.value);
      SliceAppends(x, block, lo);
      SumConcat(x[..Clip(x, lo)], Slice(x, block, lo));
      NextStart(block, b);
      done := done + [p.value];
    }
    GridCovers(|x|, block);
    assert x[..|x|] == x;
    partial := Some(done);
  }

  lemma GridEmptyIff(n: nat, block: nat)
    requires block > 0
    ensures GridSize(n, block) == 0 <==> n == 0
  {
    hide GridSize;
    GridCovers(n, block);
    StartZero(block);
    GridOfNothing(block);
  }

  lemma GridOfNothing(block: nat)
    requires block > 0
    ensures GridSize(0, block) == 0
  {
    ModUnique(block * 2 - 1, 0, block * 2, block * 2 - 1);
  }

  lemma StartZero(block: nat)
    ensures Start(block, 0) == 0
  {
  }

  lemma BlockOf(i: nat, d: nat, b: nat, r: nat)
    requires r < d
    ensures i == b * d + r <==> b == i / d && r == i % d
  {
    assert i == (i / d) * d + i % d;
    if i == b * d + r {
      ModUnique(i, b, d, r);
    }
  }

  lemma QuotientBelow(i: nat, d: nat, g: nat)
    requires d > 0 && i < g * d
    ensures i / d < g
  {
    var q := i / d;
    assert i == q * d + i % d;
    Distribute(q - g, g, d);
    MulAtLeast(q - g, d);
  }

  /** Every index of the input is read by exactly one block, at one place of its two reads. */
  lemma EveryIndexIsReadOnce(n: nat, block: nat, i: nat, b: nat, r: nat)
    requires block > 0 && i < n && r < block * 2
    ensures i == Start(block, b) + r <==> b == i / (block * 2) && r == i % (block * 2)
    ensures i / (block * 2) < GridSize(n, block)
  {
    StartIs(block, b);
    BlockOf(i, block * 2, b, r);
    hide Start, GridSize;
    GridCovers(n, block);
    StartIs(block, GridSize(n, block));
    QuotientBelow(i, block * 2, GridSize(n, block));
  }

  lemma StartIs(block: nat, b: nat)
    ensures Start(block, b) == b * (block * 2)
  {
    MulAssociates(b, block, 2);
  }
}
