/** The two FlashAttention kernels as the source runs them: one warp a query row
    (flash_attention_simple_stand.cu), and blocks of eight warps over shared tiles
    (tiled_flash_attention_stand_hpc.cu). Lanes are in lockstep; threads between barriers
    are run one after another, each writing cells no other does. */
module FlashAttention {
  import opened Folds
  import opened Softmax
  import opened Attention
  import opened Bits

  const WARP: nat := 32
  const PER_LANE: nat := 4
  const BLOCK_M: nat := 8
  const BLOCK_N: nat := 32
  const THREADS: nat := 256

  /** One shuffle-down step, all lanes at once. A lane whose source is past the warp reads
      its own value. */
  method ShuffleStep(x: array<real>, offset: nat)
    requires x.Length == WARP && 0 < offset && 2 * offset <= WARP
    modifies x
    ensures Sum(x[..offset]) == old(Sum(x[..2 * offset]))
  {
    hide Sum;
    ghost var before := x[..];
    forall lane | 0 <= lane < WARP {
      x[lane] := x[lane] + (if lane + offset < WARP then x[lane + offset] else x[lane]);
    }
    HalvingSum(before, x[..], offset);
    assert before[..2 * offset] == old(x[..2 * offset]);
    assert x[..][..offset] == x[..offset];
  }

  /** The shuffle-down tree and the broadcast of lane 0: every lane gets the whole sum. */
  method WarpReduceSum(x: array<real>)
    requires x.Length == WARP
    modifies x
    ensures forall lane :: 0 <= lane < WARP ==> x[lane] == Sum(old(x[..]))
  {
    hide Sum;
    var offset := WARP / 2;
    ghost var width: nat := WARP;
    assert x[..WARP] == x[..];
    while offset > 0
      invariant PowerOfTwo(width) && width <= WARP && offset == width / 2
      invariant Sum(x[..width]) == Sum(old(x[..]))
      decreases offset
    {
      assert width == 2 * offset;
      ShuffleStep(x, offset);
      width := offset;
      offset := offset / 2;
    }
    assert x[..1] == [x[0]];
    SumOne(x[0]);
    forall lane | 0 <= lane < WARP {
      x[lane] := x[0];
    }
  }

  /** One lane's share of a dot product: dimensions `lane`, `lane + 32`, ... */
  method LanePart(q: seq<real>, k: seq<real>, lane: nat) returns (part: real)
    requires |q| == |k| <= MAX_D && lane < WARP
    ensures part == StridedFold(Add, 0.0, Products(q, k), lane, WARP)
  {
    hide StridedFold;
    ghost var p := Products(q, k);
    part := 0.0;
    for t := 0 to PER_LANE
      invariant part + StridedFold(Add, 0.0, p, lane + t * WARP, WARP) == StridedFold(Add, 0.0, p, lane, WARP)
    {
      var d := lane + t * WARP;
      if d < |q| {
        AddStep(p, part, d, WARP);
        part := part + q[d] * k[d];
      } else {
        StridedEnd(Add, 0.0, p, d, WARP);
        StridedEnd(Add, 0.0, p, d + WARP, WARP);
      }
    }
    StridedEnd(Add, 0.0, p, lane + PER_LANE * WARP, WARP);
  }

  /** The warp's dot product: the lanes' shares, reduced. */
  method WarpDot(q: seq<real>, k: seq<real>) returns (dot: real)
    requires |q| == |k| <= MAX_D
    ensures dot == Sum(Products(q, k))
  {
    hide StridedFold, Fold;
    var parts := new real[WARP](_ => 0.0);
    for lane := 0 to WARP
      invariant forall i :: 0 <= i < lane ==> parts[i] == StridedFold(Add, 0.0, Products(q, k), i, WARP)
    {
      var part := LanePart(q, k, lane);
      parts[lane] := part;
    }
    assert parts[..] == Partials(Add, 0.0, Products(q, k), WARP);
    AddMonoid();
    StridedPartition(Add, 0.0, Products(q, k), WARP);
    WarpReduceSum(parts);
    dot := parts[0];
  }

  /** Register `t` of lane `lane` holds dimension `lane + 32 t` of the row: the lanes'
      registers together are `acc`, and each dimension is updated exactly once. */
  method WarpUpdate(acc: array<real>, v: seq<real>, oldScale: real, p: real)
    requires acc.Length == MAX_D && |v| <= MAX_D
    modifies acc
    ensures forall d :: 0 <= d < MAX_D ==> acc[d] == if d < |v| then old(acc[d]) * oldScale + p * v[d] else old(acc[d])
  {
    for lane := 0 to WARP
      invariant forall d :: 0 <= d < MAX_D ==>
        acc[d] == if d < |v| && d % WARP < lane then old(acc[d]) * oldScale + p * v[d] else old(acc[d])
    {
      for t := 0 to PER_LANE
        invariant forall d :: 0 <= d < MAX_D ==>
          acc[d] == if d < |v| && (d % WARP < lane || (d % WARP == lane && d / WARP < t))
                    then old(acc[d]) * oldScale + p * v[d] else old(acc[d])
      {
        var d := lane + t * WARP;
        if d < |v| {
          acc[d] := acc[d] * oldScale + p * v[d];
        }
      }
    }
  }

  /** The last loop: `O[row] = acc / l`. */
  method WarpStore(acc: array<real>, l: real, o: array<real>, at: nat, width: nat)
    requires acc != o && acc.Length == MAX_D && width <= MAX_D && at + width <= o.Length && l != 0.0
    modifies o
    ensures forall i :: 0 <= i < o.Length ==>
      o[i] == if at <= i < at + width then acc[i - at] / l else old(o[i])
  {
    for lane := 0 to WARP
      invariant forall i :: 0 <= i < o.Length ==>
        o[i] == if at <= i < at + width && (i - at) % WARP < lane then acc[i - at] / l else old(o[i])
    {
      for t := 0 to PER_LANE
        invariant forall i :: 0 <= i < o.Length ==>
          o[i] == if at <= i < at + width
                    && ((i - at) % WARP < lane || ((i - at) % WARP == lane && (i - at) / WARP < t))
                  then acc[i - at] / l else old(o[i])
      {
        var d := lane + t * WARP;
        if d < width {
          o[at + d] := acc[d] / l;
        }
      }
    }
  }

  /** The state a warp keeps for its row, as its registers hold it. */
  ghost predicate Keeps(acc: seq<real>, m: real, l: real, st: Online)
  {
    |st.acc| <= |acc| && m == st.m && l == st.l && acc[..|st.acc|] == st.acc
  }

  /** One key, from the rows of Q, K and V it needs: the body of both kernels' key loops. */
  method KeyStep(E: real -> real, q: seq<real>, k: seq<real>, v: seq<real>, scale: real, acc: array<real>,
                 m: real, l: real, ghost st: Online)
    returns (m': real, l': real)
    requires |q| == |k| == |v| == |st.acc| <= MAX_D && acc.Length == MAX_D
    requires Keeps(acc[..], m, l, st)
    modifies acc
    ensures Keeps(acc[..], m', l', Update(E, st, Scaled(Sum(Products(q, k)), scale), v))
  {
    hide Sum, Scaled;
    var dot := WarpDot(q, k);
    var score := Scaled(dot, scale);
    m' := Max(m, score);
    var oldScale := E(m - m');
    var p := E(score - m');
    ghost var u := Update(E, st, score, v);
    ghost var regs := acc[..];
    forall d | 0 <= d < |v| ensures regs[d] == st.acc[d] {
      assert regs[..|v|][d] == st.acc[d];
    }
    assert u.acc == ScaleAdd(st.acc, oldScale, p, v);
    WarpUpdate(acc, v, oldScale, p);
    l' := l * oldScale + p;
    forall d | 0 <= d < |v| ensures acc[..][d] == u.acc[d] {
      assert acc[d] == regs[d] * oldScale + p * v[d];
    }
    assert acc[..][..|v|] == u.acc;
    assert Keeps(acc[..], m', l', u);
  }

  lemma StartKeeps(acc: seq<real>, E: real -> real, pr: Problem, q: nat)
    requires |acc| == MAX_D && (forall d :: 0 <= d < MAX_D ==> acc[d] == 0.0)
    requires pr.Valid() && q < pr.S
    ensures Keeps(acc, LOWEST, 0.0, KeyScan(E, pr, q, 0))
  {
    KeyScanStart(E, pr, q);
    assert acc[..pr.D] == Zeros(pr.D);
  }

  /** Only the row of query `q` may differ. */
  twostate predicate OnlyRow(pr: Problem, q: nat, o: array<real>)
    reads o
  {
    forall i :: 0 <= i < o.Length && !(pr.At(q) <= i < pr.At(q) + pr.D) ==> o[i] == old(o[i])
  }

  /** The rows a key step reads are those its score and value are defined by. */
  lemma RowsOfKey(pr: Problem, qRow: nat, kRow: nat)
    requires pr.Valid() && qRow < pr.S && kRow < pr.S
    ensures pr.At(qRow) + pr.D <= |pr.Q| && pr.At(kRow) + pr.D <= |pr.K| && pr.At(kRow) + pr.D <= |pr.V|
    ensures Score(pr, qRow, kRow) ==
      Scaled(Sum(Products(pr.Q[pr.At(qRow)..pr.At(qRow) + pr.D], pr.K[pr.At(kRow)..pr.At(kRow) + pr.D])), pr.scale)
    ensures Value(pr, kRow) == pr.V[pr.At(kRow)..pr.At(kRow) + pr.D]
  {
    hide Sum, Scaled;
    RowFits(pr.S, pr.D, qRow);
    RowFits(pr.S, pr.D, kRow);
  }

  // -------------------------------------------------------------- the simple kernel

  method SimpleRow(E: real -> real, pr: Problem, o: array<real>, qRow: nat)
    requires Exponential(E) && pr.Valid() && qRow < pr.S && pr.base + pr.S * pr.D <= o.Length
    modifies o
    ensures pr.At(qRow) + pr.D <= o.Length && Holds(E, pr, qRow, o[pr.At(qRow)..pr.At(qRow) + pr.D])
    ensures OnlyRow(pr, qRow, o)
  {
    hide Exponential, KeyScan, Update, Sum, Scan, Keeps, Score, Value, Products, Scaled;
    var acc := new real[MAX_D](_ => 0.0);
    var m, l := LOWEST, 0.0;
    StartKeeps(acc[..], E, pr, qRow);
    var kvEnd := if pr.causal then qRow + 1 else pr.S;
    RowFits(pr.S, pr.D, qRow);
    for kRow := 0 to kvEnd
      invariant Keeps(acc[..], m, l, KeyScan(E, pr, qRow, kRow))
      invariant forall i :: 0 <= i < o.Length ==> o[i] == old(o[i])
    {
      RowFits(pr.S, pr.D, kRow);
      var q := pr.Q[pr.base + qRow * pr.D..pr.base + qRow * pr.D + pr.D];
      var k := pr.K[pr.base + kRow * pr.D..pr.base + kRow * pr.D + pr.D];
      var v := pr.V[pr.base + kRow * pr.D..pr.base + kRow * pr.D + pr.D];
      KeyScanStep(E, pr, qRow, kRow);
      RowsOfKey(pr, qRow, kRow);
      ghost var st := KeyScan(E, pr, qRow, kRow);
      m, l := KeyStep(E, q, k, v, pr.scale, acc, m, l, st);
      assert Keeps(acc[..], m, l, Update(E, st, Score(pr, qRow, kRow), Value(pr, kRow)));
    }
    FinalPositive(E, pr, qRow);
    Store(E, pr, qRow, acc, m, l, o);
  }

  /** Storing a finished row. */
  method Store(E: real -> real, pr: Problem, qRow: nat, acc: array<real>, m: real, l: real, o: array<real>)
    requires acc != o && acc.Length == MAX_D && pr.Valid() && qRow < pr.S && pr.base + pr.S * pr.D <= o.Length
    requires Keeps(acc[..], m, l, Final(E, pr, qRow)) && Final(E, pr, qRow).l > 0.0
    modifies o
    ensures pr.At(qRow) + pr.D <= o.Length && Holds(E, pr, qRow, o[pr.At(qRow)..pr.At(qRow) + pr.D])
    ensures OnlyRow(pr, qRow, o)
  {
    hide Final;
    RowFits(pr.S, pr.D, qRow);
    ghost var st := Final(E, pr, qRow);
    ghost var regs := acc[..];
    WarpStore(acc, l, o, pr.base + qRow * pr.D, pr.D);
    forall d | 0 <= d < pr.D ensures o[pr.At(qRow) + d] == st.acc[d] / st.l {
      assert regs[..pr.D][d] == st.acc[d];
    }
  }

  // --------------------------------------------------------------- the tiled kernel

  /** Where element `i` of a tile goes, when rows are MAX_D apart. */
  function Cell(i: nat, width: nat): nat
    requires width > 0
  {
    (i / width) * MAX_D + i % width
  }

  lemma DivMod(i: nat, w: nat)
    requires w > 0
    ensures i == (i / w) * w + i % w && i - (i / w) * w == i % w
  {
  }

  lemma CellIs(i: nat, width: nat)
    requires width > 0
    ensures Cell(i, width) == (i / width) * MAX_D + i % width
  {
  }

  lemma CellInRange(i: nat, width: nat, rows: nat)
    requires 0 < width <= MAX_D && i < rows * width
    ensures i / width < rows && Cell(i, width) < rows * MAX_D
  {
    var q := i / width;
    assert i == q * width + i % width;
    Distribute(q - rows, rows, width);
    MulAtLeast(q - rows, width);
  }

  lemma CellInjective(i: nat, j: nat, width: nat)
    requires 0 < width <= MAX_D && Cell(i, width) == Cell(j, width)
    ensures i == j
  {
    var p, q := i / width, j / width;
    assert i == p * width + i % width && j == q * width + j % width;
    assert p == q && i % width == j % width;
  }

  /** The (batch, head)'s own row `r`. */
  function RowOf(src: seq<real>, pr: Problem, r: nat): (row: seq<real>)
    requires pr.Valid() && pr.base + pr.S * pr.D <= |src| && r < pr.S
    ensures |row| == pr.D
  {
    RowFits(pr.S, pr.D, r);
    Row(src, pr.At(r), pr.D)
  }

  function RowIn(i: nat, width: nat): nat
    requires width > 0
  {
    i / width
  }

  function ColumnIn(i: nat, width: nat): (d: nat)
    requires width > 0
    ensures d < width
  {
    i % width
  }

  function Element(src: seq<real>, pr: Problem, r: nat, d: nat): real
    requires pr.Valid() && pr.base + pr.S * pr.D <= |src| && d < pr.D
  {
    if r < pr.S then RowOf(src, pr, r)[d] else 0.0
  }

  /** What the tile starting at row `first` holds at element `i`: zero past the sequence. */
  function Tiled(src: seq<real>, pr: Problem, first: nat, i: nat): real
    requires pr.Valid() && pr.base + pr.S * pr.D <= |src|
  {
    Element(src, pr, first + RowIn(i, pr.D), ColumnIn(i, pr.D))
  }

  /** The cooperative load: thread `tid` copies elements `tid`, `tid + 256`, and so on. */
  method LoadTile(src: seq<real>, pr: Problem, first: nat, rows: nat, tile: array<real>)
    requires pr.Valid() && pr.base + pr.S * pr.D <= |src| && tile.Length == rows * MAX_D
    modifies tile
    ensures forall i :: 0 <= i < rows * pr.D ==>
      Cell(i, pr.D) < tile.Length && tile[Cell(i, pr.D)] == Tiled(src, pr, first, i)
  {
    hide Cell, Tiled;
    ghost var total := rows * pr.D;
    forall i | 0 <= i < total ensures Cell(i, pr.D) < tile.Length {
      CellInRange(i, pr.D, rows);
    }
    for tid := 0 to THREADS
      invariant forall i :: 0 <= i < total && i % THREADS < tid ==> tile[Cell(i, pr.D)] == Tiled(src, pr, first, i)
    {
      LoadThread(src, pr, first, rows, tile, tid);
    }
    forall i | 0 <= i < total ensures tile[Cell(i, pr.D)] == Tiled(src, pr, first, i) {
      assert i % THREADS < THREADS;
    }
  }

  method LoadThread(src: seq<real>, pr: Problem, first: nat, rows: nat, tile: array<real>, tid: nat)
    requires pr.Valid() && pr.base + pr.S * pr.D <= |src| && tile.Length == rows * MAX_D && tid < THREADS
    requires forall i :: 0 <= i < rows * pr.D ==> Cell(i, pr.D) < tile.Length
    modifies tile
    ensures forall i :: 0 <= i < rows * pr.D ==>
      tile[Cell(i, pr.D)] == if i % THREADS == tid then Tiled(src, pr, first, i) else old(tile[Cell(i, pr.D)])
  {
    assert pr.D > 0;
    hide *;
    var idx: nat := tid;
    var total := rows * pr.D;
    while idx < total
      invariant idx % THREADS == tid
      invariant forall i :: 0 <= i < total ==>
        tile[Cell(i, pr.D)] ==
          if i % THREADS == tid && i < idx then Tiled(src, pr, first, i) else old(tile[Cell(i, pr.D)])
      decreases total - idx
    {
      CopyElement(src, pr, first, rows, tile, idx);
      NoneBetween(idx, THREADS, total);
      NextResidue(idx, THREADS);
      idx := idx + THREADS;
    }
  }

  /** One iteration: one element, to the one cell that is its. */
  method CopyElement(src: seq<real>, pr: Problem, first: nat, rows: nat, tile: array<real>, idx: nat)
    requires pr.Valid() && pr.base + pr.S * pr.D <= |src| && tile.Length == rows * MAX_D && idx < rows * pr.D
    requires forall i :: 0 <= i < rows * pr.D ==> Cell(i, pr.D) < tile.Length
    modifies tile
    ensures forall i :: 0 <= i < rows * pr.D ==>
      tile[Cell(i, pr.D)] == if i == idx then Tiled(src, pr, first, i) else old(tile[Cell(i, pr.D)])
  {
    hide Cell, Tiled;
    var x := TileElement(src, pr, first, idx);
    var c := CellOf(idx, pr.D);
    forall i | 0 <= i < rows * pr.D && i != idx ensures Cell(i, pr.D) != c {
      if Cell(i, pr.D) == c {
        CellInjective(i, idx, pr.D);
        assert false;
      }
    }
    tile[c] := x;
  }

  method CellOf(idx: nat, width: nat) returns (c: nat)
    requires width > 0
    ensures c == Cell(idx, width)
  {
    hide Cell;
    CellIs(idx, width);
    DivMod(idx, width);
    var r := idx / width;
    var d := idx - r * width;
    c := r * MAX_D + d;
  }

  method TileElement(src: seq<real>, pr: Problem, first: nat, idx: nat) returns (x: real)
    requires pr.Valid() && pr.base + pr.S * pr.D <= |src|
    ensures x == Tiled(src, pr, first, idx)
  {
    DivMod(idx, pr.D);
    var r := idx / pr.D;
    var d := idx - r * pr.D;
    if first + r < pr.S {
      RowFits(pr.S, pr.D, first + r);
      x := src[pr.base + (first + r) * pr.D + d];
    } else {
      x := 0.0;
    }
  }

  /** A row of a loaded tile is the global row, when that is within the sequence. */
  lemma TileRow(src: seq<real>, pr: Problem, first: nat, rows: nat, tile: seq<real>, r: nat)
    requires pr.Valid() && pr.base + pr.S * pr.D <= |src| && |tile| == rows * MAX_D && r < rows
    requires forall i :: 0 <= i < rows * pr.D ==>
      Cell(i, pr.D) < |tile| && tile[Cell(i, pr.D)] == Tiled(src, pr, first, i)
    requires first + r < pr.S
    ensures r * MAX_D + pr.D <= |tile| && pr.At(first + r) + pr.D <= |src|
    ensures tile[r * MAX_D..r * MAX_D + pr.D] == src[pr.At(first + r)..pr.At(first + r) + pr.D]
  {
    RowFits(pr.S, pr.D, first + r);
    var mine := tile[r * MAX_D..r * MAX_D + pr.D];
    var global := src[pr.At(first + r)..pr.At(first + r) + pr.D];
    forall d | 0 <= d < pr.D ensures mine[d] == global[d] {
      RowFits(rows, pr.D, r);
      var i := r * pr.D + d;
      ModUnique(i, r, pr.D, d);
      assert Cell(i, pr.D) == r * MAX_D + d;
      assert tile[Cell(i, pr.D)] == Tiled(src, pr, first, i);
    }
  }

  function Least(a: nat, b: nat): nat { if a <= b then a else b }

  /** One warp of one block, with the tiles its block loads. The tiles do not depend on the
      warp, so the block's warps are run one after another. */
  method TiledRow(E: real -> real, pr: Problem, o: array<real>, qBlock: nat, warp: nat)
    requires Exponential(E) && pr.Valid() && warp < BLOCK_M && pr.base + pr.S * pr.D <= o.Length
    modifies o
    ensures qBlock + warp < pr.S ==> pr.At(qBlock + warp) + pr.D <= o.Length
    ensures qBlock + warp < pr.S ==>
      Holds(E, pr, qBlock + warp, o[pr.At(qBlock + warp)..pr.At(qBlock + warp) + pr.D])
    ensures qBlock + warp < pr.S ==> OnlyRow(pr, qBlock + warp, o)
    ensures qBlock + warp >= pr.S ==> o[..] == old(o[..])
  {
    hide Exponential, KeyScan, Scan, Cell, Tiled, Keeps, Holds;
    var qRow := qBlock + warp;
    var validQ := qRow < pr.S;
    var sQ := new real[BLOCK_M * MAX_D](_ => 0.0);
    LoadTile(pr.Q, pr, qBlock, BLOCK_M, sQ);
    var acc := new real[MAX_D](_ => 0.0);
    var m, l := LOWEST, 0.0;
    if validQ { StartKeeps(acc[..], E, pr, qRow); }
    var causalEnd := qBlock + BLOCK_M;
    var kvEnd := if pr.causal then (if pr.S < causalEnd then pr.S else causalEnd) else pr.S;
    var sK := new real[BLOCK_N * MAX_D](_ => 0.0);
    var sV := new real[BLOCK_N * MAX_D](_ => 0.0);
    var kvBlock := 0;
    while kvBlock < kvEnd
      invariant validQ ==> Keeps(acc[..], m, l, KeyScan(E, pr, qRow, Least(kvBlock, pr.Visible(qRow))))
      invariant forall i :: 0 <= i < BLOCK_M * pr.D ==>
        Cell(i, pr.D) < sQ.Length && sQ[Cell(i, pr.D)] == Tiled(pr.Q, pr, qBlock, i)
      invariant o[..] == old(o[..])
      decreases kvEnd - kvBlock
    {
      LoadTile(pr.K, pr, kvBlock, BLOCK_N, sK);
      LoadTile(pr.V, pr, kvBlock, BLOCK_N, sV);
      m, l := ScanTile(E, pr, qBlock, warp, kvBlock, sQ, sK, sV, acc, m, l);
      kvBlock := kvBlock + BLOCK_N;
    }
    if validQ {
      FinalPositive(E, pr, qRow);
      Store(E, pr, qRow, acc, m, l, o);
    }
  }

  /** The loop over the keys of one loaded tile. */
  method ScanTile(E: real -> real, pr: Problem, qBlock: nat, warp: nat, kvBlock: nat,
                  sQ: array<real>, sK: array<real>, sV: array<real>, acc: array<real>, m0: real, l0: real)
    returns (m: real, l: real)
    requires pr.Valid() && warp < BLOCK_M && acc.Length == MAX_D
    requires acc != sQ && acc != sK && acc != sV
    requires sQ.Length == BLOCK_M * MAX_D && sK.Length == sV.Length == BLOCK_N * MAX_D
    requires forall i :: 0 <= i < BLOCK_M * pr.D ==>
      Cell(i, pr.D) < sQ.Length && sQ[Cell(i, pr.D)] == Tiled(pr.Q, pr, qBlock, i)
    requires forall i :: 0 <= i < BLOCK_N * pr.D ==>
      Cell(i, pr.D) < sK.Length && sK[Cell(i, pr.D)] == Tiled(pr.K, pr, kvBlock, i)
    requires forall i :: 0 <= i < BLOCK_N * pr.D ==>
      Cell(i, pr.D) < sV.Length && sV[Cell(i, pr.D)] == Tiled(pr.V, pr, kvBlock, i)
    requires qBlock + warp < pr.S ==>
      Keeps(acc[..], m0, l0, KeyScan(E, pr, qBlock + warp, Least(kvBlock, pr.Visible(qBlock + warp))))
    modifies acc
    ensures qBlock + warp < pr.S ==>
      Keeps(acc[..], m, l, KeyScan(E, pr, qBlock + warp, Least(kvBlock + BLOCK_N, pr.Visible(qBlock + warp))))
  {
    hide KeyScan, Scan, Cell, Tiled, Update, Sum, Keeps;
    m, l := m0, l0;
    var qRow := qBlock + warp;
    var validQ := qRow < pr.S;
    for j := 0 to BLOCK_N
      invariant validQ ==> Keeps(acc[..], m, l, KeyScan(E, pr, qRow, Least(kvBlock + j, pr.Visible(qRow))))
    {
      var kRow := kvBlock + j;
      if !validQ || kRow >= pr.S || (pr.causal && kRow > qRow) {
        continue;
      }
      TileRow(pr.Q, pr, qBlock, BLOCK_M, sQ[..], warp);
      TileRow(pr.K, pr, kvBlock, BLOCK_N, sK[..], j);
      TileRow(pr.V, pr, kvBlock, BLOCK_N, sV[..], j);
      assert Least(kvBlock + j, pr.Visible(qRow)) == kRow;
      m, l := TileKey(E, pr, qRow, kRow, warp * MAX_D, j * MAX_D, sQ, sK, sV, acc, m, l);
    }
  }

  /** One key of a loaded tile, at offsets `qAt` and `kAt` of the shared arrays. */
  method TileKey(E: real -> real, pr: Problem, qRow: nat, kRow: nat, qAt: nat, kAt: nat,
                 sQ: array<real>, sK: array<real>, sV: array<real>, acc: array<real>, m0: real, l0: real)
    returns (m: real, l: real)
    requires pr.Valid() && qRow < pr.S && kRow < pr.S && acc.Length == MAX_D
    requires acc != sQ && acc != sK && acc != sV
    requires qAt + pr.D <= sQ.Length && kAt + pr.D <= sK.Length && kAt + pr.D <= sV.Length
    requires pr.At(qRow) + pr.D <= |pr.Q| && pr.At(kRow) + pr.D <= |pr.K| && pr.At(kRow) + pr.D <= |pr.V|
    requires sQ[..][qAt..qAt + pr.D] == pr.Q[pr.At(qRow)..pr.At(qRow) + pr.D]
    requires sK[..][kAt..kAt + pr.D] == pr.K[pr.At(kRow)..pr.At(kRow) + pr.D]
    requires sV[..][kAt..kAt + pr.D] == pr.V[pr.At(kRow)..pr.At(kRow) + pr.D]
    requires Keeps(acc[..], m0, l0, KeyScan(E, pr, qRow, kRow))
    modifies acc
    ensures Keeps(acc[..], m, l, KeyScan(E, pr, qRow, kRow + 1))
  {
    hide KeyScan, Scan, Update, Sum, Keeps, Score, Value, Products, Scaled;
    var q := sQ[qAt..qAt + pr.D];
    var k := sK[kAt..kAt + pr.D];
    var v := sV[kAt..kAt + pr.D];
    assert q == sQ[..][qAt..qAt + pr.D] && k == sK[..][kAt..kAt + pr.D] && v == sV[..][kAt..kAt + pr.D];
    KeyScanStep(E, pr, qRow, kRow);
    RowsOfKey(pr, qRow, kRow);
    m, l := KeyStep(E, q, k, v, pr.scale, acc, m0, l0, KeyScan(E, pr, qRow, kRow));
  }

  // ------------------------------------------------------------------ whole launches

  lemma RowsApart(pr: Problem, q: nat, r: nat)
    requires q != r
    ensures pr.At(q) + pr.D <= pr.At(r) || pr.At(r) + pr.D <= pr.At(q)
  {
    if q < r { RowFits(r, pr.D, q); } else { RowFits(q, pr.D, r); }
  }

  /** Row `r` of the output holds query `r`'s attention. */
  ghost predicate Done(E: real -> real, pr: Problem, o: seq<real>, r: nat)
    requires pr.Valid() && r < pr.S
  {
    pr.At(r) + pr.D <= |o| && Holds(E, pr, r, o[pr.At(r)..pr.At(r) + pr.D])
  }

  lemma OtherRowKept(E: real -> real, pr: Problem, before: seq<real>, after: seq<real>, q: nat, r: nat)
    requires pr.Valid() && q != r && r < pr.S && |before| == |after| && Done(E, pr, before, r)
    requires forall i :: 0 <= i < |after| && !(pr.At(q) <= i < pr.At(q) + pr.D) ==> after[i] == before[i]
    ensures Done(E, pr, after, r)
  {
    RowsApart(pr, q, r);
    assert after[pr.At(r)..pr.At(r) + pr.D] == before[pr.At(r)..pr.At(r) + pr.D];
  }

  /** The simple launch: one warp for every query row. */
  method SimpleKernel(E: real -> real, pr: Problem, o: array<real>)
    requires Exponential(E) && pr.Valid() && pr.base + pr.S * pr.D <= o.Length
    modifies o
    ensures forall r :: 0 <= r < pr.S ==> Done(E, pr, o[..], r)
    ensures forall i :: 0 <= i < o.Length && !pr.Owns(i) ==> o[i] == old(o[i])
  {
    hide Exponential, Holds;
    for qRow := 0 to pr.S
      invariant forall r :: 0 <= r < qRow ==> Done(E, pr, o[..], r)
      invariant forall i :: 0 <= i < o.Length && !pr.Owns(i) ==> o[i] == old(o[i])
    {
      ghost var before := o[..];
      SimpleRow(E, pr, o, qRow);
      RowFits(pr.S, pr.D, qRow);
      forall r | 0 <= r < qRow ensures Done(E, pr, o[..], r) {
        OtherRowKept(E, pr, before, o[..], qRow, r);
      }
      assert o[..][pr.At(qRow)..pr.At(qRow) + pr.D] == o[pr.At(qRow)..pr.At(qRow) + pr.D];
    }
  }

  /** Every row below `n` is done. */
  ghost predicate DoneBelow(E: real -> real, pr: Problem, o: seq<real>, n: nat)
    requires pr.Valid()
  {
    forall r :: 0 <= r < pr.S && r < n ==> Done(E, pr, o, r)
  }

  lemma DoneNext(E: real -> real, pr: Problem, before: seq<real>, after: seq<real>, q: nat)
    requires pr.Valid() && |before| == |after| && DoneBelow(E, pr, before, q)
    requires q < pr.S ==> Done(E, pr, after, q)
    requires q < pr.S ==>
      forall i :: 0 <= i < |after| && !(pr.At(q) <= i < pr.At(q) + pr.D) ==> after[i] == before[i]
    requires q >= pr.S ==> after == before
    ensures DoneBelow(E, pr, after, q + 1)
  {
    hide Done;
    forall r | 0 <= r < pr.S && r < q + 1 ensures Done(E, pr, after, r) {
      if r < q && q < pr.S { OtherRowKept(E, pr, before, after, q, r); }
    }
  }

  /** One block of the tiled launch: its eight warps' rows. */
  method TiledBlock(E: real -> real, pr: Problem, o: array<real>, qBlock: nat)
    requires Exponential(E) && pr.Valid() && pr.base + pr.S * pr.D <= o.Length
    requires DoneBelow(E, pr, o[..], qBlock)
    modifies o
    ensures DoneBelow(E, pr, o[..], qBlock + BLOCK_M)
    ensures forall i :: 0 <= i < o.Length && !pr.Owns(i) ==> o[i] == old(o[i])
  {
    hide Exponential, Holds, DoneBelow;
    for warp := 0 to BLOCK_M
      invariant DoneBelow(E, pr, o[..], qBlock + warp)
      invariant forall i :: 0 <= i < o.Length && !pr.Owns(i) ==> o[i] == old(o[i])
    {
      ghost var before := o[..];
      var qRow := qBlock + warp;
      TiledRow(E, pr, o, qBlock, warp);
      if qRow < pr.S {
        RowFits(pr.S, pr.D, qRow);
        assert o[..][pr.At(qRow)..pr.At(qRow) + pr.D] == o[pr.At(qRow)..pr.At(qRow) + pr.D];
      }
      DoneNext(E, pr, before, o[..], qRow);
    }
  }

  /** The tiled launch leaves in every row what the simple launch does. */
  method TiledKernel(E: real -> real, pr: Problem, o: array<real>)
    requires Exponential(E) && pr.Valid() && pr.base + pr.S * pr.D <= o.Length
    modifies o
    ensures forall r :: 0 <= r < pr.S ==> Done(E, pr, o[..], r)
    ensures forall i :: 0 <= i < o.Length && !pr.Owns(i) ==> o[i] == old(o[i])
  {
    hide Exponential, Done;
    var grid := (pr.S + BLOCK_M - 1) / BLOCK_M;
    for b := 0 to grid
      invariant DoneBelow(E, pr, o[..], b * BLOCK_M)
      invariant forall i :: 0 <= i < o.Length && !pr.Owns(i) ==> o[i] == old(o[i])
    {
      TiledBlock(E, pr, o, b * BLOCK_M);
    }
  }

  /** Two outputs that both hold every row's attention agree on every row: the tiled kernel
      refines the simple one. */
  lemma SameOutput(E: real -> real, pr: Problem, a: seq<real>, b: seq<real>, r: nat, d: nat)
    requires pr.Valid() && r < pr.S && d < pr.D
    requires Done(E, pr, a, r) && Done(E, pr, b, r)
    ensures a[pr.At(r) + d] == b[pr.At(r) + d]
  {
    hide Final;
    assert a[pr.At(r)..pr.At(r) + pr.D][d] == b[pr.At(r)..pr.At(r) + pr.D][d];
  }
}
