/** Attention with the online softmax: the update both FlashAttention kernels make for each
    key, what the state it leaves means, and the row each kernel is to write. */
module Attention {
  import opened Folds
  import opened Softmax
  import opened Bits

  /** `-FLT_MAX`, where the running maximum starts. */
  const LOWEST: real := -340282346638528859811704183484516925440.0

  const MAX_D: nat := 128

  /** The running maximum, the denominator and the unnormalised output, relative to it. */
  datatype Online = Online(m: real, l: real, acc: seq<real>)

  function Zeros(n: nat): (z: seq<real>)
    ensures |z| == n && forall d :: 0 <= d < n ==> z[d] == 0.0
  {
    seq(n, _ => 0.0)
  }

  function ScaleAdd(acc: seq<real>, oldScale: real, p: real, v: seq<real>): (r: seq<real>)
    requires |acc| == |v|
    ensures |r| == |v| && forall d :: 0 <= d < |v| ==> r[d] == acc[d] * oldScale + p * v[d]
  {
    seq(|v|, d requires 0 <= d < |v| => acc[d] * oldScale + p * v[d])
  }

  /** One key: rescale what was accumulated to the new maximum, add the key's share. */
  function Update(E: real -> real, st: Online, score: real, v: seq<real>): (u: Online)
    requires |st.acc| == |v|
    ensures |u.acc| == |v|
  {
    var m' := Max(st.m, score);
    var oldScale, p := E(st.m - m'), E(score - m');
    Online(m', st.l * oldScale + p, ScaleAdd(st.acc, oldScale, p, v))
  }

  predicate Rows(vs: seq<seq<real>>, width: nat) { forall i :: 0 <= i < |vs| ==> |vs[i]| == width }

  /** The state after the keys with these scores and value rows, in order. */
  function Scan(E: real -> real, scores: seq<real>, vs: seq<seq<real>>, width: nat): (st: Online)
    requires |scores| == |vs| && Rows(vs, width)
    ensures |st.acc| == width
    decreases |scores|
  {
    var n := |scores|;
    if n == 0 then Online(LOWEST, 0.0, Zeros(width))
    else Update(E, Scan(E, scores[..n - 1], vs[..n - 1], width), scores[n - 1], vs[n - 1])
  }

  // ----------------------------------------------------- what the state means

  function Times(a: real, b: real): real { a * b }

  /** The sum of the rows' entries in column `d`, weighted. */
  function Weighted(w: seq<real>, vs: seq<seq<real>>, d: nat): real
    requires |w| == |vs| && forall i :: 0 <= i < |vs| ==> d < |vs[i]|
  {
    if w == [] then 0.0 else Weighted(w[..|w| - 1], vs[..|w| - 1], d) + Times(w[|w| - 1], vs[|w| - 1][d])
  }

  lemma WeightedSnoc(w: seq<real>, vs: seq<seq<real>>, x: real, v: seq<real>, d: nat)
    requires |w| == |vs| && (forall i :: 0 <= i < |vs| ==> d < |vs[i]|) && d < |v|
    ensures Weighted(w + [x], vs + [v], d) == Weighted(w, vs, d) + Times(x, v[d])
  {
    assert (w + [x])[..|w|] == w && (vs + [v])[..|vs|] == vs;
  }

  lemma {:induction false} WeightedScales(w: seq<real>, u: seq<real>, vs: seq<seq<real>>, d: nat, k: real)
    requires |w| == |u| == |vs| && (forall i :: 0 <= i < |vs| ==> d < |vs[i]|)
    requires forall i :: 0 <= i < |w| ==> u[i] == k * w[i]
    ensures Weighted(u, vs, d) == k * Weighted(w, vs, d)
    decreases |w|
  {
    if w != [] {
      var n := |w| - 1;
      WeightedScales(w[..n], u[..n], vs[..n], d, k);
      var a, b, v := Weighted(w[..n], vs[..n], d), w[n], vs[n][d];
      assert k * (a + b * v) == k * a + (k * b) * v;
    }
  }

  function RunningMax(scores: seq<real>): (m: real)
    ensures forall s <- scores :: s <= m
    ensures m >= LOWEST
  {
    var n := |scores|;
    if n == 0 then LOWEST
    else
      var rest := scores[..n - 1];
      assert forall s <- scores :: s in rest || s == scores[n - 1];
      Max(RunningMax(rest), scores[n - 1])
  }

  lemma {:induction false} RunningMaxAttained(scores: seq<real>)
    requires scores != [] && forall s <- scores :: s >= LOWEST
    ensures RunningMax(scores) in scores
    decreases |scores|
  {
    var n := |scores|;
    assert scores[n - 1] in scores;
    if n > 1 {
      var rest := scores[..n - 1];
      forall s | s in rest ensures s >= LOWEST { assert s in scores; }
      RunningMaxAttained(rest);
      assert RunningMax(rest) in scores;
    } else {
      assert RunningMax(scores[..0]) == LOWEST;
    }
  }

  /** Changing the reference point from `m` to `k` scales every exponential by E(m - k). */
  lemma Reference(E: real -> real, scores: seq<real>, m: real, k: real)
    requires Exponential(E)
    ensures forall i :: 0 <= i < |scores| ==> Shifted(E, scores, k)[i] == E(m - k) * Shifted(E, scores, m)[i]
  {
    hide Exponential;
    forall i | 0 <= i < |scores| ensures Shifted(E, scores, k)[i] == E(m - k) * Shifted(E, scores, m)[i] {
      ExpSum(E, m - k, scores[i] - m);
      assert m - k + (scores[i] - m) == scores[i] - k;
    }
  }

  /** What a state means: the running maximum, the sum of the exponentials relative to it,
      and in each entry of `acc` their weighted sum of values. */
  ghost predicate Means(E: real -> real, st: Online, scores: seq<real>, vs: seq<seq<real>>, width: nat)
    requires |scores| == |vs| && Rows(vs, width)
  {
    var w := Shifted(E, scores, RunningMax(scores));
    && st.m == RunningMax(scores) && st.l == Sum(w) && |st.acc| == width
    && forall d :: 0 <= d < width ==> st.acc[d] == Weighted(w, vs, d)
  }

  lemma UpdateMeans(E: real -> real, st: Online, scores: seq<real>, vs: seq<seq<real>>, s: real, v: seq<real>)
    requires Exponential(E) && |scores| == |vs| && Rows(vs, |v|)
    requires Means(E, st, scores, vs, |v|)
    ensures Rows(vs + [v], |v|)
    ensures Means(E, Update(E, st, s, v), scores + [s], vs + [v], |v|)
  {
    hide Exponential, Sum, Weighted;
    var m, k := RunningMax(scores), RunningMax(scores + [s]);
    assert (scores + [s])[..|scores|] == scores;
    assert k == Max(m, s);
    hide RunningMax;
    SumStep(E, scores, s, m, k);
    forall d | 0 <= d < |v|
      ensures Update(E, st, s, v).acc[d] == Weighted(Shifted(E, scores + [s], k), vs + [v], d)
    {
      ColumnStep(E, scores, vs, s, v, m, k, d);
    }
  }

  /** The online invariant: after any keys the state means what it should. */
  lemma {:induction false} ScanMeaning(E: real -> real, scores: seq<real>, vs: seq<seq<real>>, width: nat)
    requires Exponential(E) && |scores| == |vs| && Rows(vs, width)
    ensures Means(E, Scan(E, scores, vs, width), scores, vs, width)
    decreases |scores|
  {
    hide Exponential, Update;
    if |scores| == 0 {
      SumCons([]);
      assert Shifted(E, scores, RunningMax(scores)) == [];
    } else {
      hide Means;
      var n := |scores| - 1;
      ScanMeaning(E, scores[..n], vs[..n], width);
      UpdateMeans(E, Scan(E, scores[..n], vs[..n], width), scores[..n], vs[..n], scores[n], vs[n]);
      assert scores[..n] + [scores[n]] == scores && vs[..n] + [vs[n]] == vs;
    }
  }

  /** Moving the sum from reference `m` to `k` and adding one key. */
  lemma SumStep(E: real -> real, scores: seq<real>, s: real, m: real, k: real)
    requires Exponential(E)
    ensures Sum(Shifted(E, scores + [s], k)) == Sum(Shifted(E, scores, m)) * E(m - k) + E(s - k)
  {
    hide Exponential, Sum;
    var w, x := Shifted(E, scores, m), Shifted(E, scores, k);
    Reference(E, scores, m, k);
    SumScales(w, x, E(m - k));
    assert Shifted(E, scores + [s], k) == x + [E(s - k)];
    SumSnoc(x, E(s - k));
  }

  /** The same for one column of the weighted sums. */
  lemma ColumnStep(E: real -> real, scores: seq<real>, vs: seq<seq<real>>, s: real, v: seq<real>, m: real, k: real,
                   d: nat)
    requires Exponential(E) && |scores| == |vs| && Rows(vs, |v|) && d < |v|
    ensures Rows(vs + [v], |v|)
    ensures Weighted(Shifted(E, scores + [s], k), vs + [v], d)
         == Weighted(Shifted(E, scores, m), vs, d) * E(m - k) + E(s - k) * v[d]
  {
    hide Exponential, Weighted;
    var w, x := Shifted(E, scores, m), Shifted(E, scores, k);
    Reference(E, scores, m, k);
    WeightedScales(w, x, vs, d, E(m - k));
    assert Shifted(E, scores + [s], k) == x + [E(s - k)];
    WeightedSnoc(x, vs, E(s - k), v, d);
  }

  /** Whatever the reference point, normalising gives the plain softmax weighting. */
  lemma Normalised(E: real -> real, scores: seq<real>, vs: seq<seq<real>>, width: nat, d: nat)
    requires Exponential(E) && |scores| == |vs| && Rows(vs, width) && scores != [] && d < width
    ensures var st, plain := Scan(E, scores, vs, width), Shifted(E, scores, 0.0);
      && st.l > 0.0 && Sum(plain) > 0.0
      && st.acc[d] / st.l == Weighted(plain, vs, d) / Sum(plain)
  {
    hide Exponential, Sum, Scan, Weighted;
    ScanMeaning(E, scores, vs, width);
    var m := RunningMax(scores);
    var w, plain := Shifted(E, scores, m), Shifted(E, scores, 0.0);
    Reference(E, scores, 0.0, m);
    SumScales(plain, w, E(0.0 - m));
    WeightedScales(plain, w, vs, d, E(0.0 - m));
    forall i | 0 <= i < |scores| ensures plain[i] > 0.0 && w[i] > 0.0 {
      ExpPositive(E, scores[i] - 0.0);
      ExpPositive(E, scores[i] - m);
    }
    SumPositive(plain);
    SumPositive(w);
    ExpPositive(E, 0.0 - m);
    CancelFactor(E(0.0 - m), Weighted(plain, vs, d), Sum(plain));
  }

  ghost predicate Increasing(E: real -> real) { forall a, b :: a <= b ==> E(a) <= E(b) }

  lemma {:induction false} SumAtMost(w: seq<real>)
    requires forall i :: 0 <= i < |w| ==> w[i] <= 1.0
    ensures Sum(w) <= |w| as real
  {
    hide Sum;
    SumCons(w);
    if w != [] { SumAtMost(w[1..]); }
  }

  lemma {:induction false} SumAtLeast(w: seq<real>, j: nat)
    requires j < |w| && forall i :: 0 <= i < |w| ==> w[i] > 0.0
    ensures Sum(w) >= w[j]
  {
    hide Sum;
    SumCons(w);
    SumCons(w[1..]);
    if j > 0 {
      SumAtLeast(w[1..], j - 1);
    } else if |w| > 1 {
      SumPositive(w[1..]);
    }
  }

  lemma ExpZero(E: real -> real)
    requires Exponential(E)
    ensures E(0.0) == 1.0
  {
  }

  lemma AtMostOne(E: real -> real, a: real)
    requires Exponential(E) && Increasing(E) && a <= 0.0
    ensures E(a) <= 1.0
  {
    assert E(a) <= E(0.0);
  }

  /** The denominator never under- or overflows: it lies between 1 and the number of keys. */
  lemma DenominatorBounds(E: real -> real, scores: seq<real>, vs: seq<seq<real>>, width: nat)
    requires Exponential(E) && Increasing(E) && |scores| == |vs| && Rows(vs, width)
    requires scores != [] && forall s <- scores :: s >= LOWEST
    ensures var st := Scan(E, scores, vs, width);
      && 1.0 <= st.l <= |scores| as real
      && st.m in scores && forall s <- scores :: s <= st.m
  {
    hide Increasing, Exponential, Sum, Scan, Weighted, RunningMax;
    ScanMeaning(E, scores, vs, width);
    RunningMaxAttained(scores);
    var m := RunningMax(scores);
    var w := Shifted(E, scores, m);
    forall i | 0 <= i < |scores| ensures 0.0 < w[i] <= 1.0 {
      assert scores[i] in scores;
      AtMostOne(E, scores[i] - m);
      ExpPositive(E, scores[i] - m);
    }
    SumAtMost(w);
    var j :| 0 <= j < |scores| && scores[j] == m;
    assert scores[j] - m == 0.0;
    ExpZero(E);
    SumAtLeast(w, j);
  }

  /** `x` is between `lo` and `hi` times a total weight. */
  predicate Between(lo: real, x: real, hi: real, total: real) { lo * total <= x <= hi * total }

  lemma BetweenNothing(lo: real, hi: real)
    ensures Between(lo, 0.0, hi, 0.0)
  {
  }

  lemma {:induction false} WeightedBetween(w: seq<real>, vs: seq<seq<real>>, d: nat, lo: real, hi: real)
    requires |w| == |vs| && (forall i :: 0 <= i < |vs| ==> d < |vs[i]| && lo <= vs[i][d] <= hi)
    requires forall i :: 0 <= i < |w| ==> w[i] > 0.0
    ensures Between(lo, Weighted(w, vs, d), hi, Sum(w))
    decreases |w|
  {
    hide Sum, Between, Times;
    if w == [] {
      SumCons(w);
      BetweenNothing(lo, hi);
    } else {
      var n := |w| - 1;
      WeightedBetween(w[..n], vs[..n], d, lo, hi);
      assert w == w[..n] + [w[n]];
      SumSnoc(w[..n], w[n]);
      BetweenStep(lo, hi, Sum(w[..n]), Weighted(w[..n], vs[..n], d), w[n], vs[n][d]);
    }
  }

  lemma BetweenStep(lo: real, hi: real, a: real, b: real, w: real, v: real)
    requires Between(lo, b, hi, a) && lo <= v <= hi && w > 0.0
    ensures Between(lo, b + Times(w, v), hi, a + w)
  {
    Spread(lo, v, w);
    Spread(v, hi, w);
    assert lo * (a + w) == lo * a + w * lo && hi * (a + w) == hi * a + w * hi;
  }

  lemma Spread(x: real, y: real, w: real)
    requires x <= y && w > 0.0
    ensures w * x <= w * y
  {
  }

  /** Every output entry lies between the least and the greatest value of its column. */
  lemma OutputBetween(E: real -> real, scores: seq<real>, vs: seq<seq<real>>, width: nat, d: nat, lo: real, hi: real)
    requires Exponential(E) && |scores| == |vs| && Rows(vs, width) && scores != [] && d < width
    requires forall i :: 0 <= i < |vs| ==> lo <= vs[i][d] <= hi
    ensures var st := Scan(E, scores, vs, width);
      st.l > 0.0 && lo <= st.acc[d] / st.l <= hi
  {
    hide Exponential, Sum, Scan, Weighted;
    ScanMeaning(E, scores, vs, width);
    var w := Shifted(E, scores, RunningMax(scores));
    forall i | 0 <= i < |scores| ensures w[i] > 0.0 {
      ExpPositive(E, scores[i] - RunningMax(scores));
    }
    SumPositive(w);
    WeightedBetween(w, vs, d, lo, hi);
    QuotientBetween(Weighted(w, vs, d), Sum(w), lo, hi);
  }

  lemma QuotientBetween(a: real, b: real, lo: real, hi: real)
    requires b > 0.0 && lo * b <= a <= hi * b
    ensures lo <= a / b <= hi
  {
    var q := a / b;
    assert q * b == a;
    assert (q - lo) * b == a - lo * b && (hi - q) * b == hi * b - a;
    NonNegativeFactor(q - lo, b);
    NonNegativeFactor(hi - q, b);
  }

  lemma NonNegativeFactor(x: real, b: real)
    requires b > 0.0 && x * b >= 0.0
    ensures x >= 0.0
  {
    if x < 0.0 {
      NegativeProduct(x, b);
      assert false;
    }
  }

  lemma NegativeProduct(x: real, b: real)
    requires x < 0.0 < b
    ensures x * b < 0.0
  {
  }

  // --------------------------------------------------------------- the kernels' task

  /** One (batch, head) of the tensors: `base` is its offset, `S` the sequence length, `D`
      the head dimension, `scale` stands for `rsqrtf(D)`. */
  datatype Problem = Problem(Q: seq<real>, K: seq<real>, V: seq<real>, base: nat, S: nat, D: nat,
                             causal: bool, scale: real)
  {
    predicate Valid()
    {
      0 < D <= MAX_D && base + S * D <= |Q| && base + S * D <= |K| && base + S * D <= |V|
    }

    function At(r: nat): nat { base + r * D }

    /** An index of the output that belongs to this (batch, head). */
    predicate Owns(i: nat) { base <= i < base + S * D }

    /** The keys query row `q` may see are the first so many. */
    function Visible(q: nat): nat { if causal then q + 1 else S }
  }

  lemma RowFits(S: nat, D: nat, r: nat)
    requires r < S
    ensures r * D + D <= S * D
  {
    Distribute(r, 1, D);
    Distribute(r + 1, S - r - 1, D);
  }

  function Row(a: seq<real>, at: nat, width: nat): (row: seq<real>)
    requires at + width <= |a|
    ensures |row| == width && forall d :: 0 <= d < width ==> row[d] == a[at + d]
  {
    a[at..at + width]
  }

  function Products(q: seq<real>, k: seq<real>): (p: seq<real>)
    requires |q| == |k|
    ensures |p| == |q| && forall d :: 0 <= d < |q| ==> p[d] == q[d] * k[d]
  {
    seq(|q|, d requires 0 <= d < |q| => q[d] * k[d])
  }

  /** The score of a dot product: scaled by the inverse root of the dimension. */
  function Scaled(dot: real, scale: real): real { dot * scale }

  function Score(pr: Problem, q: nat, k: nat): real
    requires pr.Valid() && q < pr.S && k < pr.S
  {
    RowFits(pr.S, pr.D, q);
    RowFits(pr.S, pr.D, k);
    Scaled(Sum(Products(Row(pr.Q, pr.At(q), pr.D), Row(pr.K, pr.At(k), pr.D))), pr.scale)
  }

  function Value(pr: Problem, k: nat): (v: seq<real>)
    requires pr.Valid() && k < pr.S
    ensures |v| == pr.D
  {
    RowFits(pr.S, pr.D, k);
    Row(pr.V, pr.At(k), pr.D)
  }

  function Scores(pr: Problem, q: nat, n: nat): (s: seq<real>)
    requires pr.Valid() && q < pr.S && n <= pr.S
    ensures |s| == n
  {
    seq(n, k requires 0 <= k < n => Score(pr, q, k))
  }

  function Values(pr: Problem, n: nat): (vs: seq<seq<real>>)
    requires pr.Valid() && n <= pr.S
    ensures |vs| == n && Rows(vs, pr.D)
  {
    seq(n, k requires 0 <= k < n => Value(pr, k))
  }

  /** The state of query row `q` after its first `n` keys. */
  function KeyScan(E: real -> real, pr: Problem, q: nat, n: nat): (st: Online)
    requires pr.Valid() && q < pr.S && n <= pr.S
    ensures |st.acc| == pr.D
  {
    Scan(E, Scores(pr, q, n), Values(pr, n), pr.D)
  }

  lemma KeyScanStep(E: real -> real, pr: Problem, q: nat, n: nat)
    requires pr.Valid() && q < pr.S && n < pr.S
    ensures KeyScan(E, pr, q, n + 1) == Update(E, KeyScan(E, pr, q, n), Score(pr, q, n), Value(pr, n))
  {
    hide Score, Value, Update;
    assert Scores(pr, q, n + 1)[..n] == Scores(pr, q, n);
    assert Values(pr, n + 1)[..n] == Values(pr, n);
  }

  lemma KeyScanStart(E: real -> real, pr: Problem, q: nat)
    requires pr.Valid() && q < pr.S
    ensures KeyScan(E, pr, q, 0) == Online(LOWEST, 0.0, Zeros(pr.D))
  {
  }

  /** The output row both kernels are to write is this state's `acc / l`. */
  function Final(E: real -> real, pr: Problem, q: nat): (st: Online)
    requires pr.Valid() && q < pr.S
    ensures |st.acc| == pr.D
  {
    KeyScan(E, pr, q, pr.Visible(q))
  }

  lemma FinalPositive(E: real -> real, pr: Problem, q: nat)
    requires Exponential(E) && pr.Valid() && q < pr.S
    ensures Final(E, pr, q).l > 0.0
  {
    hide Exponential;
    Normalised(E, Scores(pr, q, pr.Visible(q)), Values(pr, pr.Visible(q)), pr.D, 0);
  }

  /** A row of `O` holds the attention of query `q`. */
  ghost predicate Holds(E: real -> real, pr: Problem, q: nat, o: seq<real>)
    requires pr.Valid() && q < pr.S
  {
    var st := Final(E, pr, q);
    |o| == pr.D && st.l > 0.0 && forall d :: 0 <= d < pr.D ==> o[d] == st.acc[d] / st.l
  }

  lemma PlainSumIsPositive(E: real -> real, scores: seq<real>)
    requires Exponential(E) && scores != []
    ensures Sum(Shifted(E, scores, 0.0)) > 0.0
  {
    hide Sum;
    SumPositive(Shifted(E, scores, 0.0));
  }

  /** Plain softmax attention: the exponentials of the scores over the visible keys, as
      weights of the keys' values, normalised. */
  ghost function SoftmaxAttention(E: real -> real, pr: Problem, q: nat, d: nat): real
    requires Exponential(E) && pr.Valid() && q < pr.S && d < pr.D
  {
    var n := pr.Visible(q);
    var plain := Shifted(E, Scores(pr, q, n), 0.0);
    PlainSumIsPositive(E, Scores(pr, q, n));
    Weighted(plain, Values(pr, n), d) / Sum(plain)
  }

  /** The visible values' entries in column `d` are between `lo` and `hi`. */
  predicate ColumnBetween(pr: Problem, q: nat, d: nat, lo: real, hi: real)
    requires pr.Valid() && q < pr.S && d < pr.D
  {
    forall k :: 0 <= k < pr.Visible(q) ==> lo <= Value(pr, k)[d] <= hi
  }

  /** Attention: what either kernel writes for a query is the softmax of its scores over the
      keys it may see, applied to their values, and stays within those values' range. */
  lemma RowIsSoftmaxAttention(E: real -> real, pr: Problem, q: nat, o: seq<real>, d: nat, lo: real, hi: real)
    requires Exponential(E) && pr.Valid() && q < pr.S && d < pr.D
    requires Holds(E, pr, q, o) && ColumnBetween(pr, q, d, lo, hi)
    ensures |o| == pr.D && o[d] == SoftmaxAttention(E, pr, q, d) && lo <= o[d] <= hi
  {
    hide Exponential, Sum, Scan, Weighted, Score, Value;
    var n := pr.Visible(q);
    Normalised(E, Scores(pr, q, n), Values(pr, n), pr.D, d);
    OutputBetween(E, Scores(pr, q, n), Values(pr, n), pr.D, d, lo, hi);
  }

  /** Query `q` attends to key `k`. */
  predicate Sees(pr: Problem, q: nat, k: nat) { k < pr.S && (pr.causal ==> k <= q) }

  /** The scaled dot product of a query and a key, term by term. */
  function Dot(pr: Problem, q: nat, k: nat, upTo: nat): real
    requires pr.Valid() && q < pr.S && k < pr.S && upTo <= pr.D
  {
    if upTo == 0 then 0.0
    else
      RowFits(pr.S, pr.D, q);
      RowFits(pr.S, pr.D, k);
      Dot(pr, q, k, upTo - 1) + pr.Q[pr.base + q * pr.D + (upTo - 1)] * pr.K[pr.base + k * pr.D + (upTo - 1)]
  }

  lemma DotStep(pr: Problem, q: nat, k: nat, n: nat)
    requires pr.Valid() && q < pr.S && k < pr.S && 0 < n <= pr.D
    requires pr.At(q) + pr.D <= |pr.Q| && pr.At(k) + pr.D <= |pr.K|
    ensures Dot(pr, q, k, n)
         == Dot(pr, q, k, n - 1) + pr.Q[pr.base + q * pr.D + (n - 1)] * pr.K[pr.base + k * pr.D + (n - 1)]
  {
  }

  lemma {:induction false} DotIs(pr: Problem, q: nat, k: nat, n: nat)
    requires pr.Valid() && q < pr.S && k < pr.S && n <= pr.D
    requires pr.At(q) + pr.D <= |pr.Q| && pr.At(k) + pr.D <= |pr.K|
    ensures Dot(pr, q, k, n) == Sum(Products(Row(pr.Q, pr.At(q), pr.D), Row(pr.K, pr.At(k), pr.D))[..n])
    decreases n
  {
    var p := Products(Row(pr.Q, pr.At(q), pr.D), Row(pr.K, pr.At(k), pr.D));
    hide Sum, Products, Row;
    if n == 0 {
      assert p[..0] == [];
      SumCons([]);
    } else {
      assert p[n - 1] == pr.Q[pr.base + q * pr.D + (n - 1)] * pr.K[pr.base + k * pr.D + (n - 1)];
      DotStep(pr, q, k, n);
      DotIs(pr, q, k, n - 1);
      hide *;
      assert p[..n] == p[..n - 1] + [p[n - 1]];
      SumSnoc(p[..n - 1], p[n - 1]);
    }
  }

  lemma ScoreIsDot(pr: Problem, q: nat, k: nat)
    requires pr.Valid() && q < pr.S && k < pr.S
    ensures Score(pr, q, k) == Scaled(Dot(pr, q, k, pr.D), pr.scale)
  {
    RowFits(pr.S, pr.D, q);
    RowFits(pr.S, pr.D, k);
    DotIs(pr, q, k, pr.D);
    hide Sum, Dot;
    var p := Products(Row(pr.Q, pr.At(q), pr.D), Row(pr.K, pr.At(k), pr.D));
    assert p[..pr.D] == p;
  }

  /** A key's weight: zero where the mask hides it. */
  ghost function Weight(E: real -> real, pr: Problem, q: nat, k: nat): real
    requires pr.Valid() && q < pr.S && k < pr.S
  {
    if Sees(pr, q, k) then E(Scaled(Dot(pr, q, k, pr.D), pr.scale)) else 0.0
  }

  ghost function MaskedWeights(E: real -> real, pr: Problem, q: nat): (w: seq<real>)
    requires pr.Valid() && q < pr.S
    ensures |w| == pr.S
  {
    seq(pr.S, k requires 0 <= k < pr.S => Weight(E, pr, q, k))
  }

  lemma {:induction false} ZeroTail(w: seq<real>, vs: seq<seq<real>>, n: nat, d: nat)
    requires n <= |w| == |vs| && (forall i :: 0 <= i < |vs| ==> d < |vs[i]|)
    requires forall i :: n <= i < |w| ==> w[i] == 0.0
    ensures Sum(w) == Sum(w[..n]) && Weighted(w, vs, d) == Weighted(w[..n], vs[..n], d)
    decreases |w|
  {
    hide Sum;
    if n == |w| {
      assert w[..n] == w && vs[..n] == vs;
    } else {
      var m := |w| - 1;
      ZeroTail(w[..m], vs[..m], n, d);
      assert w[..m][..n] == w[..n] && vs[..m][..n] == vs[..n];
      assert w == w[..m] + [w[m]];
      SumSnoc(w[..m], w[m]);
    }
  }

  lemma SeesIsVisible(pr: Problem, q: nat, k: nat)
    requires q < pr.S && k < pr.S
    ensures Sees(pr, q, k) <==> k < pr.Visible(q)
  {
  }

  lemma SeenWeight(E: real -> real, pr: Problem, q: nat, k: nat)
    requires pr.Valid() && q < pr.S && k < pr.S && Sees(pr, q, k)
    ensures Weight(E, pr, q, k) == E(Score(pr, q, k) - 0.0)
  {
    ScoreIsDot(pr, q, k);
    hide Score, Dot, Problem.Valid, Sees, Scaled;
    assert Score(pr, q, k) - 0.0 == Score(pr, q, k);
  }

  lemma MaskedAt(E: real -> real, pr: Problem, q: nat, k: nat)
    requires pr.Valid() && q < pr.S && k < pr.S
    ensures MaskedWeights(E, pr, q)[k] == if k < pr.Visible(q) then E(Score(pr, q, k) - 0.0) else 0.0
  {
    hide Score, Dot, Problem.Valid, Sees;
    SeesIsVisible(pr, q, k);
    if Sees(pr, q, k) { SeenWeight(E, pr, q, k); }
  }

  lemma MaskedIsPlain(E: real -> real, pr: Problem, q: nat)
    requires pr.Valid() && q < pr.S
    ensures MaskedWeights(E, pr, q)[..pr.Visible(q)] == Shifted(E, Scores(pr, q, pr.Visible(q)), 0.0)
  {
    hide Score, MaskedWeights;
    forall k | 0 <= k < pr.S
      ensures MaskedWeights(E, pr, q)[k] == if k < pr.Visible(q) then E(Score(pr, q, k) - 0.0) else 0.0
    {
      MaskedAt(E, pr, q, k);
    }
  }

  /** The same, told from the mask: what either kernel writes is, over all the keys of the
      sequence, the average of their values weighted by the exponential of the scaled dot
      product, where a key the mask hides has weight zero. */
  lemma RowIsMaskedAttention(E: real -> real, pr: Problem, q: nat, o: seq<real>, d: nat)
    requires Exponential(E) && pr.Valid() && q < pr.S && d < pr.D && Holds(E, pr, q, o)
    ensures var w := MaskedWeights(E, pr, q);
      |o| == pr.D && Sum(w) > 0.0 && o[d] == Weighted(w, Values(pr, pr.S), d) / Sum(w)
  {
    hide Exponential, Sum, Scan, Weighted, Score, Value, MaskedWeights;
    var n := pr.Visible(q);
    var w, vs := MaskedWeights(E, pr, q), Values(pr, pr.S);
    Normalised(E, Scores(pr, q, n), Values(pr, n), pr.D, d);
    MaskedIsPlain(E, pr, q);
    HiddenKeysWeighNothing(E, pr, q);
    ZeroTail(w, vs, n, d);
    assert vs[..n] == Values(pr, n);
  }

  lemma HiddenKeysWeighNothing(E: real -> real, pr: Problem, q: nat)
    requires pr.Valid() && q < pr.S
    ensures forall k :: pr.Visible(q) <= k < pr.S ==> MaskedWeights(E, pr, q)[k] == 0.0
  {
  }
}
