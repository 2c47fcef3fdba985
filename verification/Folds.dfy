/** Folding with a commutative monoid: the order in which a parallel kernel combines its
    values does not matter, and neither does how they are dealt out to threads. */
module Folds {
  function Fold<T>(f: (T, T) -> T, e: T, s: seq<T>): T
  {
    if s == [] then e else f(s[0], Fold(f, e, s[1..]))
  }

  ghost predicate Monoid<T(!new)>(f: (T, T) -> T, e: T)
  {
    && (forall a :: f(e, a) == a && f(a, e) == a)
    && (forall a, b :: f(a, b) == f(b, a))
    && (forall a, b, c :: f(f(a, b), c) == f(a, f(b, c)))
  }

  lemma {:induction false} FoldConcat<T(!new)>(f: (T, T) -> T, e: T, a: seq<T>, b: seq<T>)
    requires Monoid(f, e)
    ensures Fold(f, e, a + b) == f(Fold(f, e, a), Fold(f, e, b))
    decreases |a|
  {
    if a == [] {
      assert a + b == b;
    } else {
      assert (a + b)[1..] == a[1..] + b;
      FoldConcat(f, e, a[1..], b);
    }
  }

  lemma FoldSnoc<T(!new)>(f: (T, T) -> T, e: T, a: seq<T>, x: T)
    requires Monoid(f, e)
    ensures Fold(f, e, a + [x]) == f(Fold(f, e, a), x)
  {
    FoldConcat(f, e, a, [x]);
    assert [x][1..] == [];
  }

  lemma {:induction false} FoldZip<T(!new)>(f: (T, T) -> T, e: T, a: seq<T>, b: seq<T>, c: seq<T>)
    requires Monoid(f, e) && |a| == |b| == |c|
    requires forall i :: 0 <= i < |c| ==> c[i] == f(a[i], b[i])
    ensures Fold(f, e, c) == f(Fold(f, e, a), Fold(f, e, b))
    decreases |c|
  {
    if c != [] {
      FoldZip(f, e, a[1..], b[1..], c[1..]);
      var x, y, u, v := a[0], b[0], Fold(f, e, a[1..]), Fold(f, e, b[1..]);
      assert f(f(x, y), f(u, v)) == f(x, f(y, f(u, v)));
      assert f(y, f(u, v)) == f(f(y, u), v) == f(f(u, y), v) == f(u, f(y, v));
      assert f(x, f(u, f(y, v))) == f(f(x, u), f(y, v));
    }
  }

  lemma {:induction false} FoldPadding<T(!new)>(f: (T, T) -> T, e: T, s: seq<T>)
    requires Monoid(f, e) && forall i :: 0 <= i < |s| ==> s[i] == e
    ensures Fold(f, e, s) == e
    decreases |s|
  {
    if s != [] { FoldPadding(f, e, s[1..]); }
  }

  lemma FoldPadded<T(!new)>(f: (T, T) -> T, e: T, s: seq<T>, p: seq<T>)
    requires Monoid(f, e) && |s| <= |p|
    requires forall i :: 0 <= i < |p| ==> p[i] == if i < |s| then s[i] else e
    ensures Fold(f, e, p) == Fold(f, e, s)
  {
    hide Monoid, Fold;
    assert p[..|s|] == s;
    assert p == s + p[|s|..];
    FoldConcat(f, e, s, p[|s|..]);
    FoldPadding(f, e, p[|s|..]);
    UnitRight(f, e, Fold(f, e, s));
  }

  // --------------------------------------------------------------- halving trees

  /** One level of a reduction tree: the first `stride` cells take in the next `stride`. */
  lemma HalvingStep<T(!new)>(f: (T, T) -> T, e: T, before: seq<T>, after: seq<T>, stride: nat)
    requires Monoid(f, e) && 2 * stride <= |before| == |after|
    requires forall i :: 0 <= i < stride ==> after[i] == f(before[i], before[i + stride])
    ensures Fold(f, e, after[..stride]) == Fold(f, e, before[..2 * stride])
  {
    var lo, hi := before[..stride], before[stride..2 * stride];
    assert before[..2 * stride] == lo + hi;
    FoldConcat(f, e, lo, hi);
    FoldZip(f, e, lo, hi, after[..stride]);
  }

  predicate PowerOfTwo(n: nat)
  {
    n == 1 || (n > 0 && n % 2 == 0 && PowerOfTwo(n / 2))
  }

  /** One pass of the shared-memory tree over the cells that still matter. */
  function Pairs<T>(f: (T, T) -> T, s: seq<T>): (p: seq<T>)
    ensures |p| == |s| / 2 && forall i :: 0 <= i < |p| ==> p[i] == f(s[i], s[i + |s| / 2])
  {
    seq(|s| / 2, i requires 0 <= i < |s| / 2 => f(s[i], s[i + |s| / 2]))
  }

  /** What the stride-halving loop leaves in cell 0, for any number of cells. */
  function Tree<T>(f: (T, T) -> T, s: seq<T>): T
    requires s != []
    decreases |s|
  {
    if |s| == 1 then s[0] else Tree(f, Pairs(f, s))
  }

  /** The shared-memory tree of the block kernels. Each pass of the loop is one barrier
      phase, all threads at once. */
  method TreeReduce<T>(f: (T, T) -> T, smem: array<T>)
    requires smem.Length > 0
    modifies smem
    ensures smem[0] == Tree(f, old(smem[..]))
  {
    hide Tree;
    var stride := smem.Length / 2;
    ghost var width: nat := smem.Length;
    assert smem[..smem.Length] == smem[..];
    while stride > 0
      invariant 1 <= width <= smem.Length && stride == width / 2
      invariant Tree(f, smem[..width]) == Tree(f, old(smem[..]))
      decreases stride
    {
      ghost var before := smem[..width];
      forall tid | 0 <= tid < stride {
        smem[tid] := f(smem[tid], smem[tid + stride]);
      }
      assert smem[..stride] == Pairs(f, before);
      TreeUnfold(f, before);
      width := stride;
      stride := stride / 2;
    }
    assert smem[..1] == [smem[0]];
    TreeUnfold(f, smem[..1]);
  }

  lemma TreeUnfold<T>(f: (T, T) -> T, s: seq<T>)
    requires s != []
    ensures Tree(f, s) == if |s| == 1 then s[0] else Tree(f, Pairs(f, s))
  {
  }

  /** On a power of two of cells, the tree combines every cell once. */
  lemma {:induction false} TreeIsFold<T(!new)>(f: (T, T) -> T, e: T, s: seq<T>)
    requires Monoid(f, e) && s != [] && PowerOfTwo(|s|)
    ensures Tree(f, s) == Fold(f, e, s)
    decreases |s|
  {
    hide Monoid, Fold, Tree;
    TreeUnfold(f, s);
    if |s| == 1 {
      FoldOne(f, e, s);
    } else {
      var p, h := Pairs(f, s), |s| / 2;
      var lo, hi := s[..h], s[h..];
      FoldZip(f, e, lo, hi, p);
      FoldConcat(f, e, lo, hi);
      assert s == lo + hi;
      TreeIsFold(f, e, p);
    }
  }

  lemma FoldOne<T(!new)>(f: (T, T) -> T, e: T, s: seq<T>)
    requires Monoid(f, e) && |s| == 1
    ensures Fold(f, e, s) == s[0]
  {
    assert s[1..] == [];
  }

  /** The largest power of two not above `n`: how many cells the tree really combines. */
  function Reached(n: nat): (r: nat)
    requires n > 0
    ensures r <= n
    ensures r == n <==> PowerOfTwo(n)
  {
    if n == 1 then 1 else 2 * Reached(n / 2)
  }

  function Constant(c: real, n: nat): (s: seq<real>)
    ensures |s| == n && forall i :: 0 <= i < n ==> s[i] == c
  {
    seq(n, _ => c)
  }

  lemma DoubleUp(c: real, r: nat)
    ensures (c + c) * r as real == c * (2 * r) as real
  {
    assert (2 * r) as real == 2.0 * r as real;
  }

  lemma {:induction false} TreeOfConstant(c: real, n: nat)
    requires n > 0
    ensures Tree(Add, Constant(c, n)) == c * Reached(n) as real
    decreases n
  {
    hide Tree;
    TreeUnfold(Add, Constant(c, n));
    if n > 1 {
      assert Pairs(Add, Constant(c, n)) == Constant(c + c, n / 2);
      TreeOfConstant(c + c, n / 2);
      DoubleUp(c, Reached(n / 2));
    }
  }

  lemma {:induction false} SumOfConstant(c: real, n: nat)
    ensures Sum(Constant(c, n)) == c * n as real
  {
    SumCons(Constant(c, n));
    if n > 0 {
      assert Constant(c, n)[1..] == Constant(c, n - 1);
      SumOfConstant(c, n - 1);
    }
  }

  /** The halving tree sums every input exactly when the block size is a power of two; for
      any other, a row of ones already loses some. */
  lemma TreeIsExactIff(n: nat)
    requires n > 0
    ensures PowerOfTwo(n) <==> forall s: seq<real> :: |s| == n ==> Tree(Add, s) == Sum(s)
  {
    hide Monoid, Fold, Tree, Reached, Sum, PowerOfTwo;
    if PowerOfTwo(n) {
      forall s: seq<real> | |s| == n ensures Tree(Add, s) == Sum(s) {
        TreeIsSum(s);
      }
    } else {
      OnesAreLost(n);
    }
  }

  lemma TreeIsSum(s: seq<real>)
    requires s != [] && PowerOfTwo(|s|)
    ensures Tree(Add, s) == Sum(s)
  {
    hide Monoid, Fold, Tree;
    AddMonoid();
    TreeIsFold(Add, 0.0, s);
  }

  lemma OnesAreLost(n: nat)
    requires n > 0 && !PowerOfTwo(n)
    ensures Tree(Add, Constant(1.0, n)) < Sum(Constant(1.0, n))
  {
    hide Fold, Tree, Reached, Sum;
    TreeOfConstant(1.0, n);
    SumOfConstant(1.0, n);
    assert Reached(n) < n;
  }

  /** Powers of two are at least a factor of two apart. */
  lemma {:induction false} BetweenPowers(a: nat, b: nat)
    requires PowerOfTwo(a) && PowerOfTwo(b)
    ensures a > b ==> a >= 2 * b
    ensures b <= a / 2 && a / 2 <= b ==> a == 2 * b
    decreases a
  {
    if a > 1 && b > 1 { BetweenPowers(a / 2, b / 2); }
  }

  // ------------------------------------------------------- dealing out to threads

  /** What one thread accumulates visiting `start`, `start + step`, and so on. */
  function StridedFold<T>(f: (T, T) -> T, e: T, s: seq<T>, start: nat, step: nat): T
    requires step > 0
    decreases |s| - start
  {
    if start >= |s| then e else f(s[start], StridedFold(f, e, s, start + step, step))
  }

  function Partials<T>(f: (T, T) -> T, e: T, s: seq<T>, step: nat): (p: seq<T>)
    requires step > 0
    ensures |p| == step && forall t :: 0 <= t < step ==> p[t] == StridedFold(f, e, s, t, step)
  {
    seq(step, t requires 0 <= t => StridedFold(f, e, s, t, step))
  }

  lemma {:induction false} StridedShift<T>(f: (T, T) -> T, e: T, s: seq<T>, start: nat, step: nat)
    requires step > 0 && step <= |s| && start >= step
    ensures StridedFold(f, e, s, start, step) == StridedFold(f, e, s[step..], start - step, step)
    decreases |s| - start
  {
    if start < |s| {
      assert s[step..][start - step] == s[start];
      StridedShift(f, e, s, start + step, step);
    }
  }

  lemma UnitRight<T(!new)>(f: (T, T) -> T, e: T, x: T)
    requires Monoid(f, e)
    ensures f(x, e) == x
  {
  }

  /** One visit of a thread: accumulating moves an element from the rest to the total. */
  lemma StridedStep<T(!new)>(f: (T, T) -> T, e: T, s: seq<T>, local: T, c: nat, step: nat)
    requires Monoid(f, e) && step > 0 && c < |s|
    ensures f(local, StridedFold(f, e, s, c, step)) == f(f(local, s[c]), StridedFold(f, e, s, c + step, step))
  {
  }

  lemma ShortPartition<T(!new)>(f: (T, T) -> T, e: T, s: seq<T>, step: nat)
    requires Monoid(f, e) && |s| < step
    ensures Fold(f, e, Partials(f, e, s, step)) == Fold(f, e, s)
  {
    hide Monoid, Fold;
    var p := Partials(f, e, s, step);
    forall t | 0 <= t < step ensures p[t] == if t < |s| then s[t] else e {
      if t < |s| {
        assert StridedFold(f, e, s, t + step, step) == e;
        UnitRight(f, e, s[t]);
      }
    }
    FoldPadded(f, e, s, p);
  }

  /** Dealing a sequence out to `step` threads, each taking every `step`-th element, and
      combining what they accumulate gives the fold of the whole sequence. */
  lemma {:induction false} StridedPartition<T(!new)>(f: (T, T) -> T, e: T, s: seq<T>, step: nat)
    requires Monoid(f, e) && step > 0
    ensures Fold(f, e, Partials(f, e, s, step)) == Fold(f, e, s)
    decreases |s|
  {
    hide Monoid, Fold;
    if |s| < step {
      ShortPartition(f, e, s, step);
    } else {
      var head, rest := s[..step], s[step..];
      var p, q := Partials(f, e, s, step), Partials(f, e, rest, step);
      forall t | 0 <= t < step ensures p[t] == f(head[t], q[t]) {
        StridedShift(f, e, s, t + step, step);
      }
      FoldZip(f, e, head, q, p);
      StridedPartition(f, e, rest, step);
      FoldConcat(f, e, head, rest);
      assert s == head + rest;
    }
  }

  // ------------------------------------------------------------------ each index once

  function Union(a: multiset<int>, b: multiset<int>): multiset<int> { a + b }

  function Singles(n: nat): (s: seq<multiset<int>>)
    ensures |s| == n && forall i :: 0 <= i < n ==> s[i] == multiset{i}
  {
    seq(n, i requires 0 <= i => multiset{i})
  }

  lemma UnionMonoid()
    ensures Monoid(Union, multiset{})
  {
    forall a: multiset<int> ensures Union(multiset{}, a) == a && Union(a, multiset{}) == a {
    }
    forall a: multiset<int>, b: multiset<int> ensures Union(a, b) == Union(b, a) {
    }
    forall a: multiset<int>, b: multiset<int>, c: multiset<int>
      ensures Union(Union(a, b), c) == Union(a, Union(b, c))
    {
    }
  }

  lemma {:induction false} SinglesFold(n: nat, i: int)
    ensures Fold(Union, multiset{}, Singles(n))[i] == if 0 <= i < n then 1 else 0
  {
    hide Monoid;
    if n > 0 {
      UnionMonoid();
      assert Singles(n) == Singles(n - 1) + [multiset{n - 1}];
      FoldSnoc(Union, multiset{}, Singles(n - 1), multiset{n - 1});
      SinglesFold(n - 1, i);
    }
  }

  /** With the indices themselves for elements: the threads together visit every index
      below `n` exactly once, and no other. */
  lemma EachIndexOnce(n: nat, step: nat, i: int)
    requires step > 0
    ensures Fold(Union, multiset{}, Partials(Union, multiset{}, Singles(n), step))[i] == if 0 <= i < n then 1 else 0
  {
    hide Monoid, Fold, StridedFold;
    UnionMonoid();
    StridedPartition(Union, multiset{}, Singles(n), step);
    SinglesFold(n, i);
  }

  // ------------------------------------------------------------------- instances

  function Add(a: real, b: real): real { a + b }

  function Sum(s: seq<real>): real { Fold(Add, 0.0, s) }

  lemma SumCons(s: seq<real>)
    ensures s == [] ==> Sum(s) == 0.0
    ensures s != [] ==> Sum(s) == s[0] + Sum(s[1..])
  {
  }

  lemma SumOne(x: real)
    ensures Sum([x]) == x
  {
    SumCons([x]);
    SumCons([x][1..]);
  }

  lemma SumConcat(a: seq<real>, b: seq<real>)
    ensures Sum(a + b) == Sum(a) + Sum(b)
  {
    AddMonoid();
    FoldConcat(Add, 0.0, a, b);
  }

  lemma SumSnoc(a: seq<real>, x: real)
    ensures Sum(a + [x]) == Sum(a) + x
  {
    SumConcat(a, [x]);
    SumOne(x);
  }

  lemma HalvingSum(before: seq<real>, after: seq<real>, stride: nat)
    requires 2 * stride <= |before| == |after|
    requires forall i :: 0 <= i < stride ==> after[i] == before[i] + before[i + stride]
    ensures Sum(after[..stride]) == Sum(before[..2 * stride])
  {
    AddMonoid();
    HalvingStep(Add, 0.0, before, after, stride);
  }

  lemma AddMonoid()
    ensures Monoid(Add, 0.0)
  {
  }

  /** A float that may be minus infinity, the maximum loops' start. */
  datatype Ext = NegInf | Fin(value: real)

  function Max(a: real, b: real): real { if a >= b then a else b }

  /** `fmaxf`. */
  function MaxExt(a: Ext, b: Ext): Ext
  {
    if a == NegInf then b else if b == NegInf then a else Fin(Max(a.value, b.value))
  }

  lemma MaxMonoid()
    ensures Monoid(MaxExt, NegInf)
  {
  }
}
