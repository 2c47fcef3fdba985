/** The block-per-row softmax kernel (softmax_block.cu): one shared array, warps in lockstep
    that run in any order between two barriers, and exactly when the row it writes is the
    softmax whatever that order. */
module BlockSoftmax {
  import opened Folds
  import opened Softmax

  const WARP: nat := 32

  function WarpOf(tid: nat): nat { tid / WARP }

  /** How many warps a block of `n` threads has. */
  function Warps(n: nat): nat { (n + WARP - 1) / WARP }

  /** An order in which the warps of a block take a stretch between two barriers. */
  predicate IsOrder(order: seq<nat>, warps: nat)
  {
    && |order| == warps
    && (forall i :: 0 <= i < warps ==> order[i] < warps)
    && (forall i, j :: 0 <= i < j < warps ==> order[i] != order[j])
    && (forall w :: 0 <= w < warps ==> w in order)
  }

  /** Warp `w` runs after warp 0, and so reads cell 0 after thread 0 has written its sum. */
  ghost predicate Late(order: seq<nat>, w: nat)
  {
    exists i, j :: 0 <= i < j < |order| && order[i] == 0 && order[j] == w
  }

  /** What thread 0 writes to cell 0: the sum of its own columns. */
  function FirstSum(E: real -> real, x: seq<real>, n: nat): real
    requires n > 0
  {
    StridedFold(Add, 0.0, Exps(E, x), 0, n)
  }

  /** What the threads of warp `w` read as `max_val`. */
  ghost function ReadValue(E: real -> real, x: seq<real>, n: nat, order: seq<nat>, w: nat): Ext
    requires n > 0
  {
    if Late(order, w) then Fin(FirstSum(E, x, n)) else RowMax(x)
  }

  /** The exponentials the block writes, each relative to what its column's thread read. */
  ghost function BlockExps(E: real -> real, x: seq<real>, n: nat, order: seq<nat>): (s: seq<real>)
    requires n > 0
    ensures |s| == |x|
  {
    seq(|x|, c requires 0 <= c < |x| =>
      var r := ReadValue(E, x, n, order, WarpOf(c % n)); if r.Fin? then E(x[c] - r.value) else 0.0)
  }

  lemma BlockExpsAt(E: real -> real, x: seq<real>, n: nat, order: seq<nat>, c: nat)
    requires n > 0 && c < |x|
    ensures var r := ReadValue(E, x, n, order, WarpOf(c % n));
      r.Fin? && BlockExps(E, x, n, order)[c] == E(x[c] - r.value)
  {
    RowMaxIsMax(x);
  }

  /** The row the block leaves. */
  ghost predicate Writes(E: real -> real, x: seq<real>, n: nat, order: seq<nat>, y: seq<real>)
    requires n > 0
  {
    var exps := BlockExps(E, x, n, order);
    |y| == |x| && forall c :: 0 <= c < |x| ==> Sum(exps) != 0.0 && y[c] == exps[c] / Sum(exps)
  }

  // ------------------------------------------------------------------- the kernel

  /** One warp between the barriers at source lines 35 and 46: all its lanes read cell 0,
      then run their loops, then write their own cells. */
  method WarpSums(E: real -> real, x: seq<real>, y: array<real>, smem: array<Ext>, w: nat, ghost exps: seq<real>)
    requires smem.Length > 0 && w < Warps(smem.Length) && y.Length == |x| == |exps|
    requires forall c :: 0 <= c < |x| && WarpOf(c % smem.Length) == w ==>
      smem[0].Fin? && exps[c] == E(x[c] - smem[0].value)
    modifies y, smem
    ensures forall tid :: 0 <= tid < smem.Length ==>
      smem[tid] == if WarpOf(tid) == w then Fin(StridedFold(Add, 0.0, exps, tid, smem.Length)) else old(smem[tid])
    ensures forall i :: 0 <= i < |x| ==>
      y[i] == if WarpOf(i % smem.Length) == w then exps[i] else old(y[i])
  {
    hide StridedFold, Done, WarpOf;
    var n := smem.Length;
    var maxVal := smem[0];
    NoneDone(w);
    for lane := 0 to WARP
      invariant forall tid :: 0 <= tid < n ==>
        smem[tid] == if Done(w, lane, tid) then Fin(StridedFold(Add, 0.0, exps, tid, n)) else old(smem[tid])
      invariant forall i :: 0 <= i < |x| ==>
        y[i] == if Done(w, lane, i % n) then exps[i] else old(y[i])
    {
      var tid := w * WARP + lane;
      LaneDone(w, lane);
      if tid < n {
        Residue(tid, n);
        var localSum := LocalSum(E, x, maxVal, y, tid, n, exps);
        smem[tid] := Fin(localSum);
      } else {
        forall i | 0 <= i < |x| ensures i % n != tid {}
      }
    }
    AllDone(w);
  }

  /** Thread `tid` is one of the first `lanes` lanes of warp `w`. */
  predicate Done(w: nat, lanes: nat, tid: nat) { WarpOf(tid) == w && tid % WARP < lanes }

  lemma NoneDone(w: nat)
    ensures forall tid: nat :: !Done(w, 0, tid)
  {
  }

  lemma AllDone(w: nat)
    ensures forall tid: nat :: Done(w, WARP, tid) <==> WarpOf(tid) == w
  {
  }

  lemma LaneDone(w: nat, lane: nat)
    requires lane < WARP
    ensures WarpOf(w * WARP + lane) == w
    ensures forall tid: nat :: Done(w, lane + 1, tid) <==> Done(w, lane, tid) || tid == w * WARP + lane
  {
  }

  lemma Residue(tid: nat, n: nat)
    requires tid < n
    ensures tid % n == tid
  {
  }

  /** All the warps between those barriers, in the given order, sharing the one array. */
  method SumPhase(E: real -> real, x: seq<real>, y: array<real>, smem: array<Ext>, order: seq<nat>)
    requires smem.Length > 0 && IsOrder(order, Warps(smem.Length)) && y.Length == |x|
    requires smem[0] == RowMax(x)
    modifies y, smem
    ensures y[..] == BlockExps(E, x, smem.Length, order)
    ensures forall tid :: 0 <= tid < smem.Length ==>
      smem[tid] == Fin(StridedFold(Add, 0.0, BlockExps(E, x, smem.Length, order), tid, smem.Length))
  {
    hide StridedFold, RowMax, Exps, FirstSum;
    var n := smem.Length;
    ghost var exps := BlockExps(E, x, n, order);
    FirstThread(E, x, n, order);
    for i := 0 to |order|
      invariant forall tid :: 0 <= tid < n && WarpOf(tid) in order[..i] ==>
        smem[tid] == Fin(StridedFold(Add, 0.0, exps, tid, n))
      invariant forall c :: 0 <= c < |x| && WarpOf(c % n) in order[..i] ==> y[c] == exps[c]
      invariant smem[0] == if 0 in order[..i] then Fin(FirstSum(E, x, n)) else RowMax(x)
    {
      var w := order[i];
      LateIff(order, i);
      forall c | 0 <= c < |x| && WarpOf(c % n) == w ensures smem[0].Fin? && exps[c] == E(x[c] - smem[0].value) {
        BlockExpsAt(E, x, n, order, c);
      }
      assert order[..i + 1] == order[..i] + [w];
      WarpSums(E, x, y, smem, w, exps);
    }
    assert order[..|order|] == order;
    forall tid | 0 <= tid < n ensures WarpOf(tid) in order {
      assert WarpOf(tid) < Warps(n);
    }
    forall c | 0 <= c < |x| ensures y[c] == exps[c] {
      assert 0 <= c % n < n;
    }
  }

  /** The warp at position `i` is late exactly when warp 0 comes before it. */
  lemma LateIff(order: seq<nat>, i: nat)
    requires IsOrder(order, |order|) && i < |order|
    ensures Late(order, order[i]) <==> 0 in order[..i]
  {
    if 0 in order[..i] {
      var k :| 0 <= k < i && order[k] == 0;
    }
    if Late(order, order[i]) {
      var k, j :| 0 <= k < j < |order| && order[k] == 0 && order[j] == order[i];
      assert j == i;
      assert order[..i][k] == 0;
    }
  }

  lemma WarpZeroIsNotLate(order: seq<nat>)
    requires IsOrder(order, |order|)
    ensures !Late(order, 0)
  {
  }

  /** Thread 0 is in warp 0, which is never late: its sum is over the true exponentials. */
  lemma FirstThread(E: real -> real, x: seq<real>, n: nat, order: seq<nat>)
    requires n > 0 && IsOrder(order, Warps(n))
    ensures StridedFold(Add, 0.0, BlockExps(E, x, n, order), 0, n) == FirstSum(E, x, n)
  {
    WarpZeroIsNotLate(order);
    hide RowMax, BlockExps;
    forall c | 0 <= c < |x| && c % n == 0 ensures BlockExps(E, x, n, order)[c] == Exps(E, x)[c] {
      BlockExpsAt(E, x, n, order, c);
    }
    SameStrided(BlockExps(E, x, n, order), Exps(E, x), 0, n);
  }

  lemma {:induction false} SameStrided(a: seq<real>, b: seq<real>, start: nat, n: nat)
    requires n > 0 && |a| == |b|
    requires forall c :: 0 <= c < |a| && c % n == start % n ==> a[c] == b[c]
    ensures StridedFold(Add, 0.0, a, start, n) == StridedFold(Add, 0.0, b, start, n)
    decreases |a| - start
  {
    if start < |a| {
      NextResidue(start, n);
      SameStrided(a, b, start + n, n);
    }
  }

  /** Adding in the shared array, whose cells may hold minus infinity. */
  function AddExt(a: Ext, b: Ext): Ext
  {
    if a == NegInf || b == NegInf then NegInf else Fin(a.value + b.value)
  }

  lemma {:induction false} TreeOfFinite(s: seq<Ext>, t: seq<real>)
    requires |s| == |t| && s != [] && forall i :: 0 <= i < |s| ==> s[i] == Fin(t[i])
    ensures Tree(AddExt, s) == Fin(Tree(Add, t))
    decreases |s|
  {
    hide Tree;
    TreeUnfold(AddExt, s);
    TreeUnfold(Add, t);
    if |s| > 1 {
      TreeOfFinite(Pairs(AddExt, s), Pairs(Add, t));
    }
  }

  function Divide(a: real, b: real): real
    requires b != 0.0
  {
    a / b
  }

  /** One thread's last loop: its own columns divided by the sum. */
  method DivideThread(y: array<real>, tid: nat, n: nat, sumVal: real)
    requires tid < n && sumVal != 0.0
    modifies y
    ensures forall i :: 0 <= i < y.Length ==> y[i] == if i % n == tid then Divide(old(y[i]), sumVal) else old(y[i])
  {
    hide Divide;
    var c: nat := tid;
    assert tid % n == tid;
    while c < y.Length
      invariant c % n == tid
      invariant forall i :: 0 <= i < y.Length ==>
        y[i] == if i % n == tid && i < c then Divide(old(y[i]), sumVal) else old(y[i])
      invariant c < n + y.Length
      decreases y.Length - c
    {
      y[c] := Divide(y[c], sumVal);
      NoneBetween(c, n, y.Length);
      NextResidue(c, n);
      c := c + n;
    }
  }

  method DivideStrided(y: array<real>, n: nat, sumVal: real)
    requires n > 0 && sumVal != 0.0
    modifies y
    ensures forall i :: 0 <= i < y.Length ==> y[i] == Divide(old(y[i]), sumVal)
  {
    for tid := 0 to n
      invariant forall i :: 0 <= i < y.Length ==> y[i] == if i % n < tid then Divide(old(y[i]), sumVal) else old(y[i])
    {
      DivideThread(y, tid, n, sumVal);
    }
    forall i | 0 <= i < y.Length ensures y[i] == Divide(old(y[i]), sumVal) {
      assert i % n < n;
    }
  }

  lemma BlockExpsPositive(E: real -> real, x: seq<real>, n: nat, order: seq<nat>)
    requires Exponential(E) && n > 0
    ensures forall c :: 0 <= c < |x| ==> BlockExps(E, x, n, order)[c] > 0.0
    ensures x != [] ==> Sum(BlockExps(E, x, n, order)) > 0.0
  {
    hide Exponential, ReadValue, Sum, BlockExps;
    var exps := BlockExps(E, x, n, order);
    forall c | 0 <= c < |x| ensures exps[c] > 0.0 {
      BlockExpsAt(E, x, n, order, c);
      ExpPositive(E, x[c] - ReadValue(E, x, n, order, WarpOf(c % n)).value);
    }
    if x != [] { SumPositive(exps); }
  }

  /** The whole kernel for one row. `smem` is one array: the maxima, then the sums. `order`
      is the order the scheduler gives the warps between the maximum and the sum. */
  method Block(E: real -> real, x: seq<real>, y: array<real>, blockSize: nat, order: seq<nat>)
    requires Exponential(E) && y.Length == |x| && PowerOfTwo(blockSize) && IsOrder(order, Warps(blockSize))
    modifies y
    ensures Writes(E, x, blockSize, order, y[..])
    ensures blockSize <= WARP || |x| <= WARP ==> IsSoftmax(E, x, y[..])
  {
    hide Exponential, Monoid, Fold, StridedFold, Tree, BlockExps, Late, IsOrder, IsSoftmax;
    MaxMonoid();
    var smem := new Ext[blockSize](_ => NegInf);
    LocalMaxima(x, smem);
    StridedPartition(MaxExt, NegInf, Lift(x), blockSize);
    TreeIsFold(MaxExt, NegInf, smem[..]);
    TreeReduce(MaxExt, smem);
    SumPhase(E, x, y, smem, order);
    ghost var exps := BlockExps(E, x, blockSize, order);
    ghost var sums := Partials(Add, 0.0, exps, blockSize);
    AddMonoid();
    StridedPartition(Add, 0.0, exps, blockSize);
    TreeIsFold(Add, 0.0, sums);
    TreeOfFinite(smem[..], sums);
    TreeReduce(AddExt, smem);
    var sumVal := smem[0];
    BlockExpsPositive(E, x, blockSize, order);
    if x != [] {
      DivideStrided(y, blockSize, sumVal.value);
    }
    if blockSize <= WARP || |x| <= WARP {
      SafeOrder(E, x, blockSize, order, y[..]);
    }
  }

  // ------------------------------------------------ exactly when the order is harmless

  /** With one warp, or no column outside warp 0, no column's thread reads late. */
  lemma SafeOrder(E: real -> real, x: seq<real>, n: nat, order: seq<nat>, y: seq<real>)
    requires Exponential(E) && n > 0 && IsOrder(order, Warps(n)) && Writes(E, x, n, order, y)
    requires n <= WARP || |x| <= WARP
    ensures IsSoftmax(E, x, y)
  {
    WarpZeroIsNotLate(order);
    hide Exponential, Late, RowMax, IsOrder, BlockExps;
    forall c | 0 <= c < |x| ensures BlockExps(E, x, n, order)[c] == Exps(E, x)[c] {
      BlockExpsAt(E, x, n, order, c);
      InFirstWarp(c, n, |x|);
    }
    assert BlockExps(E, x, n, order) == Exps(E, x);
  }

  lemma InFirstWarp(c: nat, n: nat, columns: nat)
    requires n > 0 && c < columns && (n <= WARP || columns <= WARP)
    ensures WarpOf(c % n) == 0
  {
    assert c % n <= c && c % n < n;
  }

  ghost predicate StrictlyIncreasing(E: real -> real) { forall a, b :: a < b ==> E(a) < E(b) }

  function Ascending(n: nat): (order: seq<nat>) { seq(n, i => i) }

  lemma AscendingIsOrder(n: nat)
    ensures IsOrder(Ascending(n), n)
    ensures forall w :: 0 < w < n ==> Late(Ascending(n), w)
  {
    var order := Ascending(n);
    forall w | 0 <= w < n ensures w in order {
      assert order[w] == w;
    }
    forall w | 0 < w < n ensures Late(order, w) {
      assert order[0] == 0 && order[w] == w;
    }
  }

  function ZeroRow(cols: nat): (x: seq<real>)
    ensures |x| == cols && forall c :: 0 <= c < cols ==> x[c] == 0.0
  {
    seq(cols, _ => 0.0)
  }

  /** On a row of zeros the true exponentials are all one, and thread 0's sum is at least one. */
  lemma ZeroRowSums(E: real -> real, n: nat, cols: nat)
    requires Exponential(E) && n > 0 && cols > 0
    ensures RowMax(ZeroRow(cols)) == Fin(0.0)
    ensures forall c :: 0 <= c < cols ==> Exps(E, ZeroRow(cols))[c] == 1.0
    ensures FirstSum(E, ZeroRow(cols), n) >= 1.0
  {
    var x := ZeroRow(cols);
    RowMaxIsMax(x);
    ExpZeroIsOne(E);
    hide Exponential, RowMax;
    assert forall c :: 0 <= c < cols ==> x[c] - 0.0 == 0.0;
    OnesFold(Exps(E, x), n, n);
    assert FirstSum(E, x, n) == Add(Exps(E, x)[0], StridedFold(Add, 0.0, Exps(E, x), n, n));
  }

  lemma ExpZeroIsOne(E: real -> real)
    requires Exponential(E)
    ensures E(0.0) == 1.0
  {
  }

  lemma {:induction false} OnesFold(s: seq<real>, start: nat, n: nat)
    requires n > 0 && forall i :: 0 <= i < |s| ==> s[i] == 1.0
    ensures StridedFold(Add, 0.0, s, start, n) >= 0.0
    decreases |s| - start
  {
    if start < |s| { OnesFold(s, start + n, n); }
  }

  lemma SecondWarp(n: nat)
    requires n >= 2 * WARP
    ensures WarpOf(0 % n) == 0 && WarpOf(WARP % n) == 1 && Warps(n) >= 2
  {
    assert 0 % n == 0 && WARP % n == WARP;
  }

  /** What the first two warps read there. */
  lemma ZeroRowReads(E: real -> real, n: nat, cols: nat)
    requires Exponential(E) && n >= 2 * WARP && cols > WARP
    ensures var x, order := ZeroRow(cols), Ascending(Warps(n));
      && ReadValue(E, x, n, order, 0) == Fin(0.0)
      && ReadValue(E, x, n, order, 1) == Fin(FirstSum(E, x, n))
  {
    hide RowMax, FirstSum, Late, IsOrder, Exponential;
    SecondWarp(n);
    AscendingIsOrder(Warps(n));
    WarpZeroIsNotLate(Ascending(Warps(n)));
    ZeroRowSums(E, n, cols);
  }

  /** What the block writes there in columns 0 and 32, before dividing. */
  lemma ZeroRowExps(E: real -> real, n: nat, cols: nat)
    requires Exponential(E) && n >= 2 * WARP && cols > WARP
    ensures var exps := BlockExps(E, ZeroRow(cols), n, Ascending(Warps(n)));
      exps[0] == 1.0 && exps[WARP] == E(0.0 - FirstSum(E, ZeroRow(cols), n))
  {
    hide BlockExps, FirstSum, ReadValue, Exponential, Ascending, WarpOf, Warps;
    var x, order := ZeroRow(cols), Ascending(Warps(n));
    SecondWarp(n);
    ZeroRowReads(E, n, cols);
    ExpZeroIsOne(E);
    BlockExpsAt(E, x, n, order, 0);
    BlockExpsAt(E, x, n, order, WARP);
    assert x[0] - 0.0 == 0.0;
  }

  /** The failing family: a row of zeros, the warps in ascending order. Column 32 belongs to
      warp 1, whose threads read thread 0's sum for the maximum. */
  lemma LateWarpIsWrong(E: real -> real, n: nat, cols: nat, y: seq<real>)
    requires Exponential(E) && StrictlyIncreasing(E) && n >= 2 * WARP && cols > WARP
    requires Writes(E, ZeroRow(cols), n, Ascending(Warps(n)), y)
    ensures IsOrder(Ascending(Warps(n)), Warps(n))
    ensures !IsSoftmax(E, ZeroRow(cols), y)
  {
    hide BlockExps, Exponential, StrictlyIncreasing, IsOrder, FirstSum, Sum, Exps;
    var x, order := ZeroRow(cols), Ascending(Warps(n));
    AscendingIsOrder(Warps(n));
    ZeroRowSums(E, n, cols);
    ZeroRowExps(E, n, cols);
    ExpZeroIsOne(E);
    BlockExpsPositive(E, x, n, order);
    Smaller(E, FirstSum(E, x, n));
    if IsSoftmax(E, x, y) {
      assert y[0] == y[WARP];
      var exps := BlockExps(E, x, n, order);
      SameQuotient(exps[0], exps[WARP], Sum(exps));
      assert false;
    }
  }

  lemma Smaller(E: real -> real, k: real)
    requires StrictlyIncreasing(E) && k > 0.0
    ensures E(0.0 - k) < E(0.0)
  {
  }

  lemma SameQuotient(a: real, b: real, t: real)
    requires t > 0.0 && a / t == b / t
    ensures a == b
  {
    assert a == (a / t) * t && b == (b / t) * t;
  }

  lemma RowExists(E: real -> real, x: seq<real>, n: nat, order: seq<nat>) returns (y: seq<real>)
    requires Exponential(E) && n > 0
    ensures Writes(E, x, n, order, y)
  {
    BlockExpsPositive(E, x, n, order);
    hide BlockExps, Exponential, Sum;
    var exps := BlockExps(E, x, n, order);
    y := seq(|x|, c requires 0 <= c < |x| => exps[c] / Sum(exps));
  }

  /** Exactly when the block kernel is right: for every row of `cols` columns and every order
      of the warps it writes the softmax if and only if there is a single warp, or no column
      outside the first. Otherwise nothing separates a warp's read of the maximum from
      thread 0's write of its sum to the same cell. */
  lemma EveryOrderIsRightIff(E: real -> real, n: nat, cols: nat)
    requires Exponential(E) && StrictlyIncreasing(E) && PowerOfTwo(n)
    ensures (forall x: seq<real>, order: seq<nat>, y: seq<real> ::
        |x| == cols && IsOrder(order, Warps(n)) && Writes(E, x, n, order, y) ==> IsSoftmax(E, x, y))
      <==> n <= WARP || cols <= WARP
  {
    hide Exponential, StrictlyIncreasing, IsOrder, Writes, IsSoftmax;
    if n <= WARP || cols <= WARP {
      forall x: seq<real>, order: seq<nat>, y: seq<real>
        | |x| == cols && IsOrder(order, Warps(n)) && Writes(E, x, n, order, y)
        ensures IsSoftmax(E, x, y)
      {
        SafeOrder(E, x, n, order, y);
      }
    } else {
      assert PowerOfTwo(WARP);
      BetweenPowers(n, WARP);
      var y := RowExists(E, ZeroRow(cols), n, Ascending(Warps(n)));
      LateWarpIsWrong(E, n, cols, y);
    }
  }
}
