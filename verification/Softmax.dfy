/** Row softmax: the sequential kernel (softmax_naive.cu) and the block-per-row kernel with
    shared-memory trees (softmax_block.cu), over exact reals. `E` stands for `expf`. */
module Softmax {
  import opened Folds
  import opened Bits

  /** What the exponential is used for. */
  ghost predicate Exponential(E: real -> real)
  {
    && (forall a :: E(a) > 0.0)
    && E(0.0) == 1.0
    && (forall a, b :: E(a) * E(b) == E(a + b))
  }

  lemma ExpSum(E: real -> real, a: real, b: real)
    requires Exponential(E)
    ensures E(a) * E(b) == E(a + b)
  {
  }

  lemma ExpPositive(E: real -> real, a: real)
    requires Exponential(E)
    ensures E(a) > 0.0
  {
  }

  function Lift(x: seq<real>): (s: seq<Ext>)
    ensures |s| == |x| && forall i :: 0 <= i < |x| ==> s[i] == Fin(x[i])
  {
    seq(|x|, i requires 0 <= i < |x| => Fin(x[i]))
  }

  /** The maximum of a row, minus infinity if it is empty. */
  function RowMax(x: seq<real>): Ext { Fold(MaxExt, NegInf, Lift(x)) }

  lemma {:induction false} RowMaxIsMax(x: seq<real>)
    requires x != []
    ensures RowMax(x).Fin? && RowMax(x).value in x
    ensures forall v <- x :: v <= RowMax(x).value
  {
    assert Lift(x)[1..] == Lift(x[1..]);
    assert RowMax(x) == MaxExt(Fin(x[0]), RowMax(x[1..]));
    if |x| == 1 {
      assert RowMax(x[1..]) == NegInf;
    } else {
      RowMaxIsMax(x[1..]);
      assert RowMax(x[1..]).value in x;
    }
    forall v | v in x ensures v <= RowMax(x).value {
      if v != x[0] { assert v in x[1..]; }
    }
  }

  function Shifted(E: real -> real, x: seq<real>, m: real): (s: seq<real>)
    ensures |s| == |x| && forall i :: 0 <= i < |x| ==> s[i] == E(x[i] - m)
  {
    seq(|x|, i requires 0 <= i < |x| => E(x[i] - m))
  }

  /** The exponentials of a row, taken relative to its maximum. */
  function Exps(E: real -> real, x: seq<real>): (s: seq<real>)
    ensures |s| == |x|
  {
    match RowMax(x) case NegInf => seq(|x|, _ => 0.0) case Fin(m) => Shifted(E, x, m)
  }

  lemma {:induction false} SumPositive(s: seq<real>)
    requires s != [] && forall i :: 0 <= i < |s| ==> s[i] > 0.0
    ensures Sum(s) > 0.0
  {
    SumCons(s);
    SumCons(s[1..]);
    if |s| > 1 {
      SumPositive(s[1..]);
    }
  }

  lemma ExpsPositive(E: real -> real, x: seq<real>)
    requires Exponential(E)
    ensures x != [] ==> Sum(Exps(E, x)) > 0.0
    ensures forall i :: 0 <= i < |x| ==> Exps(E, x)[i] > 0.0
  {
    hide Exponential, Fold, RowMax;
    if x != [] {
      RowMaxIsMax(x);
      forall i | 0 <= i < |x| ensures Exps(E, x)[i] > 0.0 {
        ExpPositive(E, x[i] - RowMax(x).value);
      }
      SumPositive(Exps(E, x));
    }
  }

  /** The row both kernels are to write. */
  ghost predicate IsSoftmax(E: real -> real, x: seq<real>, y: seq<real>)
  {
    |y| == |x| && forall c :: 0 <= c < |x| ==> Sum(Exps(E, x)) != 0.0 && y[c] == Exps(E, x)[c] / Sum(Exps(E, x))
  }

  // ------------------------------------------------------------------- the kernels

  lemma FoldNone()
    ensures Fold(MaxExt, NegInf, []) == NegInf && Sum([]) == 0.0
  {
  }

  method SequentialMax(x: seq<real>) returns (maxVal: Ext)
    ensures maxVal == RowMax(x)
  {
    hide Monoid, Fold, MaxExt;
    MaxMonoid();
    FoldNone();
    maxVal := NegInf;
    ghost var row := Lift(x);
    for c := 0 to |x|
      invariant maxVal == Fold(MaxExt, NegInf, row[..c])
    {
      FoldSnoc(MaxExt, NegInf, row[..c], row[c]);
      assert row[..c + 1] == row[..c] + [row[c]];
      maxVal := MaxExt(maxVal, Fin(x[c]));
    }
    assert row[..|x|] == row;
  }

  method SequentialExps(E: real -> real, x: seq<real>, m: Ext, y: array<real>, ghost exps: seq<real>)
    returns (sumVal: real)
    requires y.Length == |x| == |exps|
    requires x != [] ==> m.Fin? && exps == Shifted(E, x, m.value)
    modifies y
    ensures y[..] == exps && sumVal == Sum(exps)
  {
    hide Sum;
    sumVal := 0.0;
    SumCons([]);
    for c := 0 to |x|
      invariant sumVal == Sum(exps[..c])
      invariant forall i :: 0 <= i < c ==> y[i] == exps[i]
    {
      var e := E(x[c] - m.value);
      y[c] := e;
      SumSnoc(exps[..c], e);
      assert exps[..c + 1] == exps[..c] + [e];
      sumVal := sumVal + e;
    }
    assert exps[..|x|] == exps;
  }

  /** The kernel's three loops, by thread 0 of the row's block. */
  method Naive(E: real -> real, x: seq<real>, y: array<real>)
    requires Exponential(E) && y.Length == |x|
    modifies y
    ensures IsSoftmax(E, x, y[..])
  {
    hide Exponential, Sum, RowMax;
    var maxVal := SequentialMax(x);
    if x != [] { RowMaxIsMax(x); }
    ghost var exps := Exps(E, x);
    var sumVal := SequentialExps(E, x, maxVal, y, exps);
    ExpsPositive(E, x);
    DivideAll(x, y, exps, sumVal);
  }

  /** The last loop: every entry divided by the sum. */
  method DivideAll(x: seq<real>, y: array<real>, ghost exps: seq<real>, sumVal: real)
    requires y.Length == |x| == |exps| && y[..] == exps
    requires x != [] ==> sumVal != 0.0
    modifies y
    ensures forall c :: 0 <= c < |x| ==> y[c] == exps[c] / sumVal
  {
    for c := 0 to |x|
      invariant c > 0 ==> sumVal != 0.0
      invariant forall i :: 0 <= i < c ==> y[i] == exps[i] / sumVal
      invariant forall i :: c <= i < |x| ==> y[i] == exps[i]
    {
      y[c] := y[c] / sumVal;
    }
  }

  lemma {:induction false} StridedEnd<T>(f: (T, T) -> T, e: T, s: seq<T>, start: nat, step: nat)
    requires step > 0 && start >= |s|
    ensures StridedFold(f, e, s, start, step) == e
  {
  }

  lemma MaxUnits(m: Ext)
    ensures MaxExt(NegInf, m) == m && MaxExt(m, NegInf) == m
  {
  }

  lemma MaxStep(s: seq<Ext>, local: Ext, c: nat, step: nat)
    requires step > 0 && c < |s|
    ensures MaxExt(local, StridedFold(MaxExt, NegInf, s, c, step))
         == MaxExt(MaxExt(local, s[c]), StridedFold(MaxExt, NegInf, s, c + step, step))
  {
    MaxMonoid();
    hide MaxExt;
    StridedStep(MaxExt, NegInf, s, local, c, step);
  }

  /** One thread's first loop: the maximum of the columns it visits. */
  method LocalMax(x: seq<real>, tid: nat, n: nat) returns (localMax: Ext)
    requires n > 0
    ensures localMax == StridedFold(MaxExt, NegInf, Lift(x), tid, n)
  {
    hide MaxExt, StridedFold;
    ghost var row := Lift(x);
    localMax := NegInf;
    var c: nat := tid;
    MaxUnits(StridedFold(MaxExt, NegInf, row, tid, n));
    while c < |x|
      invariant MaxExt(localMax, StridedFold(MaxExt, NegInf, row, c, n)) == StridedFold(MaxExt, NegInf, row, tid, n)
      decreases |x| - c
    {
      MaxStep(row, localMax, c, n);
      localMax := MaxExt(localMax, Fin(x[c]));
      c := c + n;
    }
    StridedEnd(MaxExt, NegInf, row, c, n);
    MaxUnits(localMax);
  }

  /** Every thread writes its own cell of shared memory. */
  method LocalMaxima(x: seq<real>, smem: array<Ext>)
    requires smem.Length > 0
    modifies smem
    ensures smem[..] == Partials(MaxExt, NegInf, Lift(x), smem.Length)
  {
    hide StridedFold;
    for tid := 0 to smem.Length
      invariant forall t :: 0 <= t < tid ==> smem[t] == StridedFold(MaxExt, NegInf, Lift(x), t, smem.Length)
    {
      var localMax := LocalMax(x, tid, smem.Length);
      smem[tid] := localMax;
    }
  }

  lemma AddStep(s: seq<real>, local: real, c: nat, step: nat)
    requires step > 0 && c < |s|
    ensures local + StridedFold(Add, 0.0, s, c, step) == local + s[c] + StridedFold(Add, 0.0, s, c + step, step)
  {
    AddMonoid();
    StridedStep(Add, 0.0, s, local, c, step);
  }

  /** One thread's second loop, with the reference value it read: the exponentials of the
      columns it visits, and their sum. */
  method LocalSum(E: real -> real, x: seq<real>, m: Ext, y: array<real>, tid: nat, n: nat, ghost exps: seq<real>)
    returns (localSum: real)
    requires tid < n && y.Length == |x| == |exps|
    requires forall c :: 0 <= c < |x| && c % n == tid ==> m.Fin? && exps[c] == E(x[c] - m.value)
    modifies y
    ensures localSum == StridedFold(Add, 0.0, exps, tid, n)
    ensures forall i :: 0 <= i < |x| ==> y[i] == if i % n == tid then exps[i] else old(y[i])
  {
    hide StridedFold, Monoid;
    localSum := 0.0;
    var c: nat := tid;
    assert tid % n == tid;
    while c < |x|
      invariant c % n == tid
      invariant localSum + StridedFold(Add, 0.0, exps, c, n) == StridedFold(Add, 0.0, exps, tid, n)
      invariant forall i :: 0 <= i < |x| ==> y[i] == if i % n == tid && i < c then exps[i] else old(y[i])
      invariant c < n + |x|
      decreases |x| - c
    {
      var e := E(x[c] - m.value);
      AddStep(exps, localSum, c, n);
      y[c] := e;
      localSum := localSum + e;
      NoneBetween(c, n, |x|);
      NextResidue(c, n);
      c := c + n;
    }
    StridedEnd(Add, 0.0, exps, c, n);
  }

  lemma NextResidue(c: nat, n: nat)
    requires n > 0
    ensures (c + n) % n == c % n
  {
    var q := c / n;
    Distribute(q, 1, n);
    ModUnique(c + n, q + 1, n, c % n);
  }

  /** Between two visits of a thread there is no other index of its own. */
  lemma SameResidue(i: nat, c: nat, n: nat)
    requires n > 0 && i % n == c % n && i < c + n
    ensures i <= c
  {
    var p, q := i / n, c / n;
    Apart(i, c, n, p, q, i % n);
  }

  lemma NoneBetween(c: nat, n: nat, end: nat)
    requires n > 0
    ensures forall i :: c < i < end && i % n == c % n ==> i >= c + n
  {
    forall i | c < i < end && i % n == c % n ensures i >= c + n {
      if i < c + n { SameResidue(i, c, n); }
    }
  }

  lemma Apart(i: nat, c: nat, n: nat, p: nat, q: nat, r: nat)
    requires n > 0 && i == p * n + r && c == q * n + r && i < c + n
    ensures i <= c
  {
    Distribute(p - q, q, n);
    MulAtLeast(p - q, n);
  }

  // ------------------------------------------------------ what the row's values mean

  lemma {:induction false} SumScales(s: seq<real>, t: seq<real>, k: real)
    requires |s| == |t| && forall i :: 0 <= i < |s| ==> t[i] == k * s[i]
    ensures Sum(t) == k * Sum(s)
  {
    SumCons(s);
    SumCons(t);
    if s != [] {
      SumScales(s[1..], t[1..], k);
      assert k * (s[0] + Sum(s[1..])) == k * s[0] + k * Sum(s[1..]);
    }
  }

  /** A softmax row is a probability distribution. */
  lemma SoftmaxIsDistribution(E: real -> real, x: seq<real>, y: seq<real>)
    requires Exponential(E) && x != [] && IsSoftmax(E, x, y)
    ensures forall c :: 0 <= c < |y| ==> y[c] > 0.0
    ensures Sum(y) == 1.0
  {
    hide Exponential, Exps, Sum;
    ExpsPositive(E, x);
    var exps := Exps(E, x);
    var total := Sum(exps);
    forall c | 0 <= c < |y| ensures y[c] > 0.0 && y[c] == (1.0 / total) * exps[c] {
      Quotient(exps[c], total);
    }
    SumScales(exps, y, 1.0 / total);
  }

  lemma Quotient(a: real, b: real)
    requires b > 0.0
    ensures a / b == (1.0 / b) * a && (a > 0.0 ==> a / b > 0.0)
  {
  }

  /** Every exponential of the row is the plain one times a common factor. */
  lemma ExpsScale(E: real -> real, x: seq<real>)
    requires Exponential(E) && x != []
    ensures RowMax(x).Fin?
    ensures Sum(Exps(E, x)) == E(-RowMax(x).value) * Sum(Shifted(E, x, 0.0))
    ensures forall i :: 0 <= i < |x| ==> Exps(E, x)[i] == E(-RowMax(x).value) * Shifted(E, x, 0.0)[i]
  {
    hide Exponential, RowMax, Sum;
    RowMaxIsMax(x);
    var m, plain := RowMax(x).value, Shifted(E, x, 0.0);
    forall i | 0 <= i < |x| ensures Exps(E, x)[i] == E(-m) * plain[i] {
      ExpSum(E, -m, x[i] - 0.0);
      assert -m + (x[i] - 0.0) == x[i] - m;
    }
    SumScales(plain, Exps(E, x), E(-m));
  }

  /** Taking out the maximum first does not change the result: it is the plain softmax. */
  lemma SoftmaxIsPlain(E: real -> real, x: seq<real>, y: seq<real>, c: nat)
    requires Exponential(E) && IsSoftmax(E, x, y) && c < |x|
    ensures Sum(Shifted(E, x, 0.0)) != 0.0
    ensures y[c] == E(x[c]) / Sum(Shifted(E, x, 0.0))
  {
    hide Exponential, RowMax, Sum, Exps;
    ExpsScale(E, x);
    var m, plain := RowMax(x).value, Shifted(E, x, 0.0);
    forall i | 0 <= i < |x| ensures plain[i] > 0.0 {
      ExpPositive(E, x[i] - 0.0);
    }
    SumPositive(plain);
    ExpPositive(E, -m);
    assert x[c] - 0.0 == x[c];
    CancelFactor(E(-m), plain[c], Sum(plain));
  }

  lemma CancelFactor(k: real, a: real, b: real)
    requires k > 0.0 && b > 0.0
    ensures k * b != 0.0 && (k * a) / (k * b) == a / b
  {
    var q := a / b;
    assert q * b == a;
    assert q * (k * b) == k * (q * b) == k * a;
    assert k * b > 0.0;
  }
}
