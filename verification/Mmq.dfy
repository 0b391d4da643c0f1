/**
 The multi-warp tiled matrix product over Q4_K weights, in exact arithmetic.

 One block of 128 threads owns a tile of 16 rows by 32 tokens. Between barriers the threads are run
 in thread order; `TileCellOwner`, `ScaleOwner` and `OutputOwner` say that no two of them write the
 same place, so any other order gives the same memory. The tensor-core instruction is the one piece
 of hardware: it multiplies the matrices its 32 lanes hold in fragments.
 */
module Mmq {
  import opened Common
  import opened KQuant

  const TILE_M := 16
  const TILE_N := 8
  const N_WARPS := 4
  const BLOCK_N := 32

  /** Row-major index into a table of the given width. */
  function Flat(i: nat, j: nat, width: nat): nat { i * width + j }

  lemma FlatInRange(i: nat, j: nat, width: nat, height: nat)
    requires i < height && j < width
    ensures Flat(i, j, width) < height * width
  {
    MulMono(i + 1, height, width);
  }

  lemma FlatInjective(i: nat, j: nat, i': nat, j': nat, width: nat)
    requires j < width && j' < width && Flat(i, j, width) == Flat(i', j', width)
    ensures i == i' && j == j'
  {
    DivModUnique(Flat(i, j, width), width, i, j);
    DivModUnique(Flat(i, j, width), width, i', j');
  }

  /** y = W x: m rows of k / 256 weight blocks, n tokens of k activations. */
  datatype Gemm = Gemm(w: seq<BlockQ4K>, x: seq<real>, m: nat, n: nat, k: nat) {
    function Blocks(): nat { k / QK_K }

    function Columns(): (c: nat)
      ensures c <= k && (k % QK_K == 0 ==> c == k)
    {
      Blocks() * QK_K
    }

    predicate Valid() {
      && |w| == m * Blocks()
      && |x| == n * k
      && forall i | 0 <= i < |w| :: w[i].Valid()
    }

    function Block(r: nat, b: nat): (blk: BlockQ4K)
      requires Valid() && r < m && b < Blocks()
      ensures blk.Valid()
    {
      FlatInRange(r, b, Blocks(), m);
      w[Flat(r, b, Blocks())]
    }

    function Weight(r: nat, c: nat): real
      requires Valid() && r < m && c < Columns()
    {
      Q4Value(Block(r, c / QK_K), c % QK_K)
    }

    function Activation(t: nat, c: nat): real
      requires Valid() && t < n && c < k
    {
      FlatInRange(t, c, k, n);
      x[Flat(t, c, k)]
    }

    /** The first `upTo` terms of the dot product of weight row r and token t. */
    function Dot(r: nat, t: nat, upTo: nat): real
      requires Valid() && r < m && t < n && upTo <= Columns()
    {
      if upTo == 0 then 0.0 else Dot(r, t, upTo - 1) + Weight(r, upTo - 1) * Activation(t, upTo - 1)
    }

    // Rows and tokens beyond the matrix are masked: they read as zero.

    function MaskedWeight(r: nat, c: nat): real
      requires Valid() && c < Columns()
    {
      if r < m then Weight(r, c) else 0.0
    }

    function MaskedActivation(t: nat, c: nat): real
      requires Valid() && c < k
    {
      if t < n then Activation(t, c) else 0.0
    }

    function MaskedDot(r: nat, t: nat, upTo: nat): real
      requires Valid() && upTo <= Columns()
    {
      if r < m && t < n then Dot(r, t, upTo) else 0.0
    }
  }

  // ---- The law of the product, on the arrays themselves ----

  /** Weight row r at column c times token t's activation at column c, both read row-major. */
  function Term(w: seq<BlockQ4K>, x: seq<real>, k: nat, r: nat, t: nat, c: nat): real {
    var block, column := r * (k / 256) + c / 256, t * k + c;
    if block < |w| && w[block].Valid() && column < |x| then Q4Value(w[block], c % 256) * x[column] else 0.0
  }

  function TermSum(w: seq<BlockQ4K>, x: seq<real>, k: nat, r: nat, t: nat, n: nat): real {
    if n == 0 then 0.0 else TermSum(w, x, k, r, t, n - 1) + Term(w, x, k, r, t, n - 1)
  }

  function Entry(y: seq<real>, t: nat, r: nat, m: nat): real { if t * m + r < |y| then y[t * m + r] else 0.0 }

  /** y holds, token by token, the products of every weight row with the token's activations. */
  ghost predicate IsProduct(g: Gemm, y: seq<real>) {
    && |y| == g.n * g.m
    && forall t: nat, r: nat | t < g.n && r < g.m :: Entry(y, t, r, g.m) == TermSum(g.w, g.x, g.k, r, t, g.k / 256 * 256)
  }

  lemma {:induction false} DotIsTermSum(g: Gemm, r: nat, t: nat, n: nat)
    requires g.Valid() && r < g.m && t < g.n && n <= g.Columns()
    ensures g.Dot(r, t, n) == TermSum(g.w, g.x, g.k, r, t, n)
  {
    hide Term, Gemm.Valid, Gemm.Weight, Gemm.Activation, Gemm.Columns;
    if n > 0 {
      DotIsTermSum(g, r, t, n - 1);
      TermIs(g, r, t, n - 1);
    }
  }

  lemma TermIs(g: Gemm, r: nat, t: nat, c: nat)
    requires g.Valid() && r < g.m && t < g.n && c < g.Columns()
    ensures Term(g.w, g.x, g.k, r, t, c) == g.Weight(r, c) * g.Activation(t, c)
  {
    hide Q4Value;
    FlatInRange(r, c / QK_K, g.Blocks(), g.m);
    FlatInRange(t, c, g.k, g.n);
  }

  lemma DotsAreProduct(g: Gemm, y: seq<real>)
    requires g.Valid() && |y| == g.n * g.m
    requires forall t: nat, r: nat | t < g.n && r < g.m :: Flat(t, r, g.m) < |y| && y[Flat(t, r, g.m)] == g.Dot(r, t, g.Columns())
    ensures IsProduct(g, y)
  {
    hide TermSum, Gemm.Dot, Gemm.Valid;
    forall t: nat, r: nat | t < g.n && r < g.m
      ensures Entry(y, t, r, g.m) == TermSum(g.w, g.x, g.k, r, t, g.k / 256 * 256)
    {
      assert Flat(t, r, g.m) == t * g.m + r;
      DotIsTermSum(g, r, t, g.Columns());
    }
  }

  lemma ArrayIsProduct(g: Gemm, y: array<real>)
    requires g.Valid() && y.Length == g.n * g.m
    requires forall t: nat, r: nat | t < g.n && r < g.m :: Flat(t, r, g.m) < y.Length && y[Flat(t, r, g.m)] == g.Dot(r, t, g.Columns())
    ensures IsProduct(g, y[..])
  {
    hide Flat, Gemm.Dot, IsProduct, Gemm.Valid;
    DotsAreProduct(g, y[..]);
  }

  function OneHot(k: nat, c0: nat): (x: seq<real>)
    ensures |x| == k && forall c | 0 <= c < k :: x[c] == if c == c0 then 1.0 else 0.0
  {
    seq(k, c => if c == c0 then 1.0 else 0.0)
  }

  /** A token whose activations are one at column c0 and zero elsewhere picks out element c0 of every weight row. */
  lemma OneHotPicks(g: Gemm, y: seq<real>, t: nat, r: nat, c0: nat)
    requires g.Valid() && IsProduct(g, y) && t < g.n && r < g.m && c0 < g.k / 256 * 256
    requires t * g.k + g.k <= |g.x| && g.x[t * g.k..t * g.k + g.k] == OneHot(g.k, c0)
    ensures r * (g.k / 256) + c0 / 256 < |g.w| && t * g.m + r < |y|
    ensures g.w[r * (g.k / 256) + c0 / 256].Valid() && y[t * g.m + r] == Q4Value(g.w[r * (g.k / 256) + c0 / 256], c0 % 256)
  {
    FlatInRange(r, c0 / QK_K, g.Blocks(), g.m);
    FlatInRange(t, r, g.m, g.n);
    assert g.w[r * (g.k / 256) + c0 / 256].Valid();
    hide Q4Value, TermSum, Gemm.Valid, OneHot;
    OneHotSum(g, t, r, c0, g.k / 256 * 256);
    assert Entry(y, t, r, g.m) == TermSum(g.w, g.x, g.k, r, t, g.k / 256 * 256);
  }

  lemma {:induction false} OneHotSum(g: Gemm, t: nat, r: nat, c0: nat, n: nat)
    requires g.Valid() && t < g.n && r < g.m && c0 < g.k / 256 * 256 && n <= g.k / 256 * 256
    requires t * g.k + g.k <= |g.x| && g.x[t * g.k..t * g.k + g.k] == OneHot(g.k, c0)
    requires r * (g.k / 256) + c0 / 256 < |g.w| && g.w[r * (g.k / 256) + c0 / 256].Valid()
    ensures TermSum(g.w, g.x, g.k, r, t, n) == if c0 < n then Q4Value(g.w[r * (g.k / 256) + c0 / 256], c0 % 256) else 0.0
  {
    if n > 0 {
      hide Q4Value, Term, Gemm.Valid, OneHot;
      OneHotSum(g, t, r, c0, n - 1);
      OneHotTerm(g, t, r, c0, n - 1);
    }
  }

  lemma OneHotTerm(g: Gemm, t: nat, r: nat, c0: nat, c: nat)
    requires g.Valid() && t < g.n && r < g.m && c0 < g.k / 256 * 256 && c < g.k / 256 * 256
    requires t * g.k + g.k <= |g.x| && g.x[t * g.k..t * g.k + g.k] == OneHot(g.k, c0)
    requires r * (g.k / 256) + c0 / 256 < |g.w| && g.w[r * (g.k / 256) + c0 / 256].Valid()
    ensures Term(g.w, g.x, g.k, r, t, c) == if c == c0 then Q4Value(g.w[r * (g.k / 256) + c0 / 256], c0 % 256) else 0.0
  {
    hide Q4Value, Gemm.Valid;
    assert g.x[t * g.k + c] == g.x[t * g.k..t * g.k + g.k][c];
  }

  /** The product is additive in each token's activations. */
  lemma ProductAdds(a: Gemm, b: Gemm, c: Gemm, ya: seq<real>, yb: seq<real>, yc: seq<real>, t: nat, r: nat)
    requires a.Valid() && b.Valid() && c.Valid() && a.w == b.w == c.w && a.m == b.m == c.m && a.n == b.n == c.n && a.k == b.k == c.k
    requires IsProduct(a, ya) && IsProduct(b, yb) && IsProduct(c, yc) && t < a.n && r < a.m
    requires forall i | 0 <= i < |c.x| :: c.x[i] == a.x[i] + b.x[i]
    ensures t * a.m + r < |ya| == |yb| == |yc| && yc[t * a.m + r] == ya[t * a.m + r] + yb[t * a.m + r]
  {
    FlatInRange(t, r, a.m, a.n);
    SumsAdd(a, b, c, t, r, a.Columns());
    assert Entry(ya, t, r, a.m) == TermSum(a.w, a.x, a.k, r, t, a.k / 256 * 256);
    assert Entry(yb, t, r, a.m) == TermSum(b.w, b.x, b.k, r, t, b.k / 256 * 256);
    assert Entry(yc, t, r, a.m) == TermSum(c.w, c.x, c.k, r, t, c.k / 256 * 256);
  }

  lemma {:induction false} SumsAdd(a: Gemm, b: Gemm, c: Gemm, t: nat, r: nat, n: nat)
    requires a.Valid() && b.Valid() && c.Valid() && a.w == b.w == c.w && a.m == b.m == c.m && a.n == b.n == c.n && a.k == b.k == c.k
    requires t < a.n && r < a.m && n <= a.Columns()
    requires forall i | 0 <= i < |c.x| :: c.x[i] == a.x[i] + b.x[i]
    ensures TermSum(c.w, c.x, c.k, r, t, n) == TermSum(a.w, a.x, a.k, r, t, n) + TermSum(b.w, b.x, b.k, r, t, n)
  {
    hide Q4Value;
    if n > 0 {
      SumsAdd(a, b, c, t, r, n - 1);
      FlatInRange(r, (n - 1) / QK_K, a.Blocks(), a.m);
      FlatInRange(t, n - 1, a.k, a.n);
      var v, i := Q4Value(a.w[r * (a.k / 256) + (n - 1) / 256], (n - 1) % 256), t * a.k + (n - 1);
      assert v * (a.x[i] + b.x[i]) == v * a.x[i] + v * b.x[i];
    }
  }

  // ---- The simple form ----

  method HostReference(g: Gemm, y: array<real>)
    requires g.Valid() && y.Length == g.n * g.m
    modifies y
    ensures forall t: nat, r: nat | t < g.n && r < g.m :: Flat(t, r, g.m) < y.Length && y[Flat(t, r, g.m)] == g.Dot(r, t, g.Columns())
    ensures IsProduct(g, y[..])
  {
    hide Flat, Gemm.Dot;
    InRangeAll(g.n, g.m);
    for t := 0 to g.n
      invariant forall t': nat, r: nat | t' < t && r < g.m :: y[Flat(t', r, g.m)] == g.Dot(r, t', g.Columns())
    {
      for r := 0 to g.m
        invariant forall t': nat, r': nat | t' < t && r' < g.m :: y[Flat(t', r', g.m)] == g.Dot(r', t', g.Columns())
        invariant forall r': nat | r' < r :: y[Flat(t, r', g.m)] == g.Dot(r', t, g.Columns())
      {
        var acc := HostDot(g, r, t);
        InjectiveAt(t, r, g.m);
        y[Flat(t, r, g.m)] := acc;
      }
    }
    ArrayIsProduct(g, y);
  }

  method HostDot(g: Gemm, r: nat, t: nat) returns (acc: real)
    requires g.Valid() && r < g.m && t < g.n
    ensures acc == g.Dot(r, t, g.Columns())
  {
    hide ToReal, GetScaleMinK4, Gemm.Block, Gemm.Blocks, Gemm.Weight, Gemm.Activation;
    acc := 0.0;
    for b := 0 to g.Blocks()
      invariant acc == g.Dot(r, t, b * QK_K)
    {
      var blk := g.Block(r, b);
      for sb := 0 to 8
        invariant acc == g.Dot(r, t, b * QK_K + sb * 32)
      {
        var s := GetScaleMinK4(sb, blk.scales);
        var d, dm := blk.dall * ToReal(s.d), blk.dmin * ToReal(s.m);
        acc := HostSubBlock(g, r, t, b, sb, blk, d, dm, acc);
      }
    }
  }

  method HostSubBlock(g: Gemm, r: nat, t: nat, b: nat, sb: nat, blk: BlockQ4K, d: real, dm: real, start: real) returns (acc: real)
    requires g.Valid() && r < g.m && t < g.n && b < g.Blocks() && sb < 8 && blk == g.Block(r, b)
    requires var s := GetScaleMinK4(sb, blk.scales); d == blk.dall * ToReal(s.d) && dm == blk.dmin * ToReal(s.m)
    requires start == g.Dot(r, t, b * QK_K + sb * 32)
    ensures b * QK_K + sb * 32 + 32 <= g.Columns() && acc == g.Dot(r, t, b * QK_K + sb * 32 + 32)
  {
    hide ToReal, GetScaleMinK4, Gemm.Block, Gemm.Weight, Gemm.Activation, Gemm.Columns, Dequant;
    ColumnSplit(g, b, sb, 31);
    var il, parity := sb / 2, sb % 2 == 1;
    var kBase := b * QK_K + sb * 32;
    acc := start;
    for col := 0 to 32
      invariant acc == g.Dot(r, t, kBase + col)
    {
      TileValue(g, r, b, sb, col, d, dm);
      acc := acc + Dequant(blk.qs[32 * il + col], parity, d, dm) * g.Activation(t, kBase + col);
    }
  }

  lemma InRangeAll(height: nat, width: nat)
    ensures forall i: nat, j: nat | i < height && j < width :: Flat(i, j, width) < height * width
  {
    forall i: nat, j: nat | i < height && j < width ensures Flat(i, j, width) < height * width {
      FlatInRange(i, j, width, height);
    }
  }

  lemma InjectiveAt(i: nat, j: nat, width: nat)
    requires j < width
    ensures forall i': nat, j': nat | j' < width && (i != i' || j != j') :: Flat(i', j', width) != Flat(i, j, width)
  {
    forall i': nat, j': nat | j' < width && (i != i' || j != j') ensures Flat(i', j', width) != Flat(i, j, width) {
      if Flat(i', j', width) == Flat(i, j, width) {
        FlatInjective(i', j', i, j, width);
      }
    }
  }

  lemma ColumnSplit(g: Gemm, b: nat, sb: nat, col: nat)
    requires b < g.Blocks() && sb < 8 && col < 32
    ensures b * QK_K + sb * 32 + col < g.Columns()
    ensures (b * QK_K + sb * 32 + col) / QK_K == b && (b * QK_K + sb * 32 + col) % QK_K == sb * 32 + col
  {
    DivModUnique(b * QK_K + sb * 32 + col, QK_K, b, sb * 32 + col);
  }

  lemma WeightAt(g: Gemm, r: nat, b: nat, sb: nat, col: nat)
    requires g.Valid() && r < g.m && b < g.Blocks() && sb < 8 && col < 32
    ensures b * QK_K + sb * 32 + col < g.Columns()
    ensures g.Weight(r, b * QK_K + sb * 32 + col) == Q4Value(g.Block(r, b), sb * 32 + col)
  {
    hide Q4Value, Gemm.Block;
    ColumnSplit(g, b, sb, col);
  }

  /** The formula both kernels use, on the byte and the half the sub-block selects. */
  function Dequant(qb: u8, parity: bool, d: real, dm: real): real {
    d * ToReal(Half(qb, parity)) - dm
  }

  /** The kernel's dequantization formula gives the weight the row layout defines. */
  lemma TileValue(g: Gemm, r: nat, b: nat, sb: nat, col: nat, d: real, dm: real)
    requires g.Valid() && r < g.m && b < g.Blocks() && sb < 8 && col < 32
    requires var blk := g.Block(r, b); var s := GetScaleMinK4(sb, blk.scales);
             d == blk.dall * ToReal(s.d) && dm == blk.dmin * ToReal(s.m)
    ensures b * QK_K + sb * 32 + col < g.Columns()
    ensures g.Weight(r, b * QK_K + sb * 32 + col) == Dequant(g.Block(r, b).qs[32 * (sb / 2) + col], sb % 2 == 1, d, dm)
  {
    hide ToReal, Half, GetScaleMinK4, Q4Value, Q4Scaled, Gemm.Block, Gemm.Weight, Dequant;
    WeightAt(g, r, b, sb, col);
    var blk := g.Block(r, b);
    Q4At(blk, sb, col);
    DequantIs(blk, GetScaleMinK4(sb, blk.scales), blk.qs[32 * (sb / 2) + col], sb % 2 == 1, d, dm);
  }

  lemma DequantIs(blk: BlockQ4K, s: ScaleMin, qb: u8, parity: bool, d: real, dm: real)
    requires d == blk.dall * ToReal(s.d) && dm == blk.dmin * ToReal(s.m)
    ensures Dequant(qb, parity, d, dm) == Q4Scaled(blk, s, Half(qb, parity))
  {
    hide Half, ToReal, Q4Scaled;
    ScaledParts(blk, s, Half(qb, parity), d, dm);
  }

  // ---- Fragments of mma.m16n8k16 ----

  /** A warp's registers: 32 lanes, each with the listed number of values. */
  type Fragments = seq<seq<real>>

  predicate Shaped(f: Fragments, regs: nat) { |f| == 32 && forall l | 0 <= l < 32 :: |f[l]| == regs }

  /** Element (r, k) of the 16 x 16 matrix held in A fragments: four registers of two halves per lane. */
  function MatA(a: Fragments, r: nat, k: nat): real
    requires Shaped(a, 8) && r < 16 && k < 16
  {
    a[r % 8 * 4 + k % 8 / 2][2 * (r / 8 + 2 * (k / 8)) + k % 2]
  }

  /** Element (k, n) of the 16 x 8 matrix held in B fragments. */
  function MatB(b: Fragments, k: nat, n: nat): real
    requires Shaped(b, 4) && k < 16 && n < 8
  {
    b[n * 4 + k % 8 / 2][2 * (k / 8) + k % 2]
  }

  /** Where lane l keeps its accumulator i in the 16 x 8 result. */
  function RowOf(l: nat, i: nat): nat { l / 4 + 8 * (i / 2) }

  function ColOf(l: nat, i: nat): nat { l % 4 * 2 + i % 2 }

  /** The first k terms of element (r, n) of A times B. */
  function Product(a: Fragments, b: Fragments, r: nat, n: nat, k: nat): real
    requires Shaped(a, 8) && Shaped(b, 4) && r < 16 && n < 8 && k <= 16
  {
    if k == 0 then 0.0 else Product(a, b, r, n, k - 1) + MatA(a, r, k - 1) * MatB(b, k - 1, n)
  }

  function MmaLane(d: Fragments, a: Fragments, b: Fragments, l: nat, i: nat): real
    requires Shaped(d, 4) && Shaped(a, 8) && Shaped(b, 4) && l < 32 && i < 4
  {
    d[l][i] + Product(a, b, RowOf(l, i), ColOf(l, i), 16)
  }

  /** The instruction: every lane's four accumulators gain the matrix product of the whole warp. */
  function Mma(d: Fragments, a: Fragments, b: Fragments): (d': Fragments)
    requires Shaped(d, 4) && Shaped(a, 8) && Shaped(b, 4)
    ensures Shaped(d', 4)
    ensures forall l: nat, i: nat | l < 32 && i < 4 :: d'[l][i] == MmaLane(d, a, b, l, i)
  {
    seq(32, l requires 0 <= l < 32 =>
      [MmaLane(d, a, b, l, 0), MmaLane(d, a, b, l, 1), MmaLane(d, a, b, l, 2), MmaLane(d, a, b, l, 3)])
  }

  /** The accumulator positions of a warp are the cells of its 16 x 8 tile, once each. */
  lemma AccumulatorOwner(r: nat, c: nat)
    requires r < 16 && c < 8
    ensures var l, i := r % 8 * 4 + c / 2, 2 * (r / 8) + c % 2; l < 32 && i < 4 && RowOf(l, i) == r && ColOf(l, i) == c
    ensures forall l: nat, i: nat | l < 32 && i < 4 && RowOf(l, i) == r && ColOf(l, i) == c ::
              l == r % 8 * 4 + c / 2 && i == 2 * (r / 8) + c % 2
  {
    var l', i' := r % 8 * 4 + c / 2, 2 * (r / 8) + c % 2;
    DivModUnique(l', 4, r % 8, c / 2);
    DivModUnique(i', 2, r / 8, c % 2);
    forall l: nat, i: nat | l < 32 && i < 4 && RowOf(l, i) == r && ColOf(l, i) == c ensures l == l' && i == i' {
      DivModUnique(r, 8, i / 2, l / 4);
      DivModUnique(c, 2, l % 4, i % 2);
    }
  }

  // ---- One block ----

  /** Step 1: 128 threads, one (d, dm) pair each. */
  method LoadScales(g: Gemm, rowBase: nat, b: nat, perD: array2<real>, perDm: array2<real>)
    requires g.Valid() && b < g.Blocks()
    requires perD != perDm && perD.Length0 == perDm.Length0 == TILE_M && perD.Length1 == perDm.Length1 == 8
    modifies perD, perDm
    ensures forall row: nat, sb: nat | row < TILE_M && sb < 8 ::
              perD[row, sb] == ScaleD(g, rowBase + row, b, sb) && perDm[row, sb] == ScaleM(g, rowBase + row, b, sb)
  {
    hide ToReal, GetScaleMinK4, Gemm.Block, Gemm.Blocks;
    for t := 0 to 128
      invariant forall row: nat, sb: nat | row < TILE_M && sb < 8 && row * 8 + sb < t ::
                  perD[row, sb] == ScaleD(g, rowBase + row, b, sb) && perDm[row, sb] == ScaleM(g, rowBase + row, b, sb)
    {
      var row, sb := TileRow(t), t % 8;
      var gRow := rowBase + row;
      var d, dm := 0.0, 0.0;
      if gRow < g.m {
        var blk := g.Block(gRow, b);
        var s := GetScaleMinK4(sb, blk.scales);
        d, dm := blk.dall * ToReal(s.d), blk.dmin * ToReal(s.m);
      }
      perD[row, sb] := d;
      perDm[row, sb] := dm;
    }
  }

  function ScaleD(g: Gemm, r: nat, b: nat, sb: nat): real
    requires g.Valid() && b < g.Blocks() && sb < 8
  {
    if r < g.m then g.Block(r, b).dall * ToReal(GetScaleMinK4(sb, g.Block(r, b).scales).d) else 0.0
  }

  function ScaleM(g: Gemm, r: nat, b: nat, sb: nat): real
    requires g.Valid() && b < g.Blocks() && sb < 8
  {
    if r < g.m then g.Block(r, b).dmin * ToReal(GetScaleMinK4(sb, g.Block(r, b).scales).m) else 0.0
  }

  /** Column of the weight matrix behind column col of the tile for sub-block sb of block b. */
  function Column(b: nat, sb: nat, col: nat): nat { b * QK_K + sb * 32 + col }

  /** Step 2a: 128 threads, four cells of the 16 x 32 tile each. */
  method DequantTile(g: Gemm, rowBase: nat, b: nat, sb: nat,
                     perD: array2<real>, perDm: array2<real>, tile: array2<real>)
    requires g.Valid() && b < g.Blocks() && sb < 8
    requires perD.Length0 == perDm.Length0 == tile.Length0 == TILE_M
    requires perD.Length1 == perDm.Length1 == 8 && tile.Length1 == 32 && tile != perD && tile != perDm
    requires forall row: nat | row < TILE_M ::
               perD[row, sb] == ScaleD(g, rowBase + row, b, sb) && perDm[row, sb] == ScaleM(g, rowBase + row, b, sb)
    modifies tile
    ensures forall row: nat, col: nat | row < TILE_M && col < 32 ::
              Column(b, sb, col) < g.Columns() && tile[row, col] == g.MaskedWeight(rowBase + row, Column(b, sb, col))
  {
    hide ScaleD, ScaleM, Gemm.Blocks, Gemm.Columns, Gemm.MaskedWeight;
    TileColumns(g, b, sb);
    for t := 0 to 128
      invariant forall row: nat, col: nat | row < TILE_M && col < 32 && row * 8 + col / 4 < t ::
                  tile[row, col] == g.MaskedWeight(rowBase + row, Column(b, sb, col))
    {
      DequantThread(g, rowBase, b, sb, t, perD, perDm, tile);
    }
  }

  /** Thread t's four cells: one row, four adjacent columns. */
  method DequantThread(g: Gemm, rowBase: nat, b: nat, sb: nat, t: nat,
                       perD: array2<real>, perDm: array2<real>, tile: array2<real>)
    requires g.Valid() && b < g.Blocks() && sb < 8 && t < 128
    requires perD.Length0 == perDm.Length0 == tile.Length0 == TILE_M
    requires perD.Length1 == perDm.Length1 == 8 && tile.Length1 == 32 && tile != perD && tile != perDm
    requires forall row: nat | row < TILE_M ::
               perD[row, sb] == ScaleD(g, rowBase + row, b, sb) && perDm[row, sb] == ScaleM(g, rowBase + row, b, sb)
    requires forall col: nat | col < 32 :: Column(b, sb, col) < g.Columns()
    modifies tile
    ensures forall row: nat, col: nat | row < TILE_M && col < 32 ::
              tile[row, col] == if row * 8 + col / 4 == t then g.MaskedWeight(rowBase + row, Column(b, sb, col)) else old(tile[row, col])
  {
    hide ScaleD, ScaleM, Gemm.Blocks, Gemm.Columns, Gemm.MaskedWeight, Column;
    var row, col4 := TileRow(t), TileCol(t, 0);
    for s := 0 to 4
      invariant forall col: nat | col4 <= col < col4 + s :: tile[row, col] == g.MaskedWeight(rowBase + row, Column(b, sb, col))
      invariant forall row': nat, col: nat | row' < TILE_M && col < 32 && !(row' == row && col4 <= col < col4 + s) ::
                  tile[row', col] == old(tile[row', col])
    {
      var col := col4 + s;
      var val := TileCell(g, rowBase + row, b, sb, col, perD[row, sb], perDm[row, sb]);
      tile[row, col] := val;
    }
  }

  method TileCell(g: Gemm, gRow: nat, b: nat, sb: nat, col: nat, d: real, dm: real) returns (val: real)
    requires g.Valid() && b < g.Blocks() && sb < 8 && col < 32
    requires d == ScaleD(g, gRow, b, sb) && dm == ScaleM(g, gRow, b, sb)
    ensures Column(b, sb, col) < g.Columns() && val == g.MaskedWeight(gRow, Column(b, sb, col))
  {
    hide ToReal, Half, GetScaleMinK4, Gemm.Block, Gemm.Weight;
    ColumnSplit(g, b, sb, col);
    if gRow < g.m {
      TileValue(g, gRow, b, sb, col, d, dm);
      var qb := g.Block(gRow, b).qs[32 * (sb / 2) + col];
      val := Dequant(qb, sb % 2 == 1, d, dm);
    } else {
      val := 0.0;
    }
  }

  lemma TileColumns(g: Gemm, b: nat, sb: nat)
    requires b < g.Blocks() && sb < 8
    ensures forall col: nat | col < 32 :: Column(b, sb, col) < g.Columns()
  {
    forall col: nat | col < 32 ensures Column(b, sb, col) < g.Columns() {
      ColumnSplit(g, b, sb, col);
    }
  }

  /** Step 2b, loads: lane l's A registers for the 16 columns from ka of the tile. */
  method LoadA(tile: array2<real>, ka: nat) returns (a: Fragments)
    requires tile.Length0 == TILE_M && tile.Length1 == 32 && ka <= 16
    ensures Shaped(a, 8)
    ensures forall r: nat, k: nat | r < 16 && k < 16 :: MatA(a, r, k) == tile[r, ka + k]
  {
    a := [];
    for lane := 0 to 32
      invariant |a| == lane && forall l | 0 <= l < lane :: |a[l]| == 8
      invariant forall l | 0 <= l < lane :: LaneHoldsA(a[l], tile, ka, l)
    {
      var group, tinG := lane / 4, lane % 4;
      var c := ka + tinG * 2;
      a := a + [[tile[group, c], tile[group, c + 1], tile[group + 8, c], tile[group + 8, c + 1],
                 tile[group, c + 8], tile[group, c + 9], tile[group + 8, c + 8], tile[group + 8, c + 9]]];
    }
    forall r: nat, k: nat | r < 16 && k < 16 ensures MatA(a, r, k) == tile[r, ka + k] {
      FragmentA(a, tile, ka, r, k);
    }
  }

  ghost predicate LaneHoldsA(regs: seq<real>, tile: array2<real>, ka: nat, l: nat)
    requires |regs| == 8 && tile.Length0 == TILE_M && tile.Length1 == 32 && ka <= 16 && l < 32
    reads tile
  {
    var g, c := l / 4, ka + l % 4 * 2;
    && regs[0] == tile[g, c] && regs[1] == tile[g, c + 1]
    && regs[2] == tile[g + 8, c] && regs[3] == tile[g + 8, c + 1]
    && regs[4] == tile[g, c + 8] && regs[5] == tile[g, c + 9]
    && regs[6] == tile[g + 8, c + 8] && regs[7] == tile[g + 8, c + 9]
  }

  lemma FragmentA(a: Fragments, tile: array2<real>, ka: nat, r: nat, k: nat)
    requires Shaped(a, 8) && tile.Length0 == TILE_M && tile.Length1 == 32 && ka <= 16 && r < 16 && k < 16
    requires forall l | 0 <= l < 32 :: LaneHoldsA(a[l], tile, ka, l)
    ensures MatA(a, r, k) == tile[r, ka + k]
  {
    hide LaneHoldsA;
    var l := r % 8 * 4 + k % 8 / 2;
    DivModUnique(l, 4, r % 8, k % 8 / 2);
    assert k == 8 * (k / 8) + 2 * (k % 8 / 2) + k % 2;
    assert r == 8 * (r / 8) + r % 8;
    RegisterA(a[l], tile, ka, l, r / 8, k / 8, k % 2);
  }

  lemma RegisterA(regs: seq<real>, tile: array2<real>, ka: nat, l: nat, i: nat, j: nat, o: nat)
    requires |regs| == 8 && tile.Length0 == TILE_M && tile.Length1 == 32 && ka <= 16 && l < 32
    requires LaneHoldsA(regs, tile, ka, l) && i < 2 && j < 2 && o < 2
    ensures regs[2 * (i + 2 * j) + o] == tile[l / 4 + 8 * i, ka + 8 * j + l % 4 * 2 + o]
  {
  }

  /** The B registers of a warp whose tokens start at tokBase, for the 16 activations from kPos. */
  method LoadB(g: Gemm, tokBase: nat, kPos: nat) returns (b: Fragments)
    requires g.Valid() && kPos + 16 <= g.k
    ensures Shaped(b, 4)
    ensures forall k: nat, n: nat | k < 16 && n < 8 :: MatB(b, k, n) == g.MaskedActivation(tokBase + n, kPos + k)
  {
    hide Gemm.Valid, Gemm.Activation, Gemm.MaskedActivation;
    b := [];
    for lane := 0 to 32
      invariant |b| == lane && forall l | 0 <= l < lane :: |b[l]| == 4
      invariant forall l | 0 <= l < lane :: LaneHoldsB(b[l], g, tokBase, kPos, l)
    {
      var group, tinG := lane / 4, lane % 4;
      var regs := LoadBLane(g, tokBase + group, kPos + tinG * 2);
      b := b + [regs];
    }
    forall k: nat, n: nat | k < 16 && n < 8 ensures MatB(b, k, n) == g.MaskedActivation(tokBase + n, kPos + k) {
      FragmentB(b, g, tokBase, kPos, k, n);
    }
  }

  method LoadBLane(g: Gemm, gTok: nat, c: nat) returns (regs: seq<real>)
    requires g.Valid() && c + 10 <= g.k
    ensures |regs| == 4
    ensures regs[0] == g.MaskedActivation(gTok, c) && regs[1] == g.MaskedActivation(gTok, c + 1)
    ensures regs[2] == g.MaskedActivation(gTok, c + 8) && regs[3] == g.MaskedActivation(gTok, c + 9)
  {
    if gTok < g.n {
      regs := [g.Activation(gTok, c), g.Activation(gTok, c + 1), g.Activation(gTok, c + 8), g.Activation(gTok, c + 9)];
    } else {
      regs := [0.0, 0.0, 0.0, 0.0];
    }
  }

  ghost predicate LaneHoldsB(regs: seq<real>, g: Gemm, tokBase: nat, kPos: nat, l: nat)
    requires |regs| == 4 && g.Valid() && kPos + 16 <= g.k && l < 32
  {
    var t, c := tokBase + l / 4, kPos + l % 4 * 2;
    && regs[0] == g.MaskedActivation(t, c) && regs[1] == g.MaskedActivation(t, c + 1)
    && regs[2] == g.MaskedActivation(t, c + 8) && regs[3] == g.MaskedActivation(t, c + 9)
  }

  lemma FragmentB(b: Fragments, g: Gemm, tokBase: nat, kPos: nat, k: nat, n: nat)
    requires g.Valid() && kPos + 16 <= g.k && k < 16 && n < 8 && Shaped(b, 4)
    requires forall l | 0 <= l < 32 :: LaneHoldsB(b[l], g, tokBase, kPos, l)
    ensures MatB(b, k, n) == g.MaskedActivation(tokBase + n, kPos + k)
  {
    hide Gemm.Valid, Gemm.Activation, Gemm.MaskedActivation;
    var l := n * 4 + k % 8 / 2;
    DivModUnique(l, 4, n, k % 8 / 2);
    assert LaneHoldsB(b[l], g, tokBase, kPos, l);
    assert k == 8 * (k / 8) + 2 * (k % 8 / 2) + k % 2;
  }

  /** Sixteen terms of a masked dot product are one row of A times one column of B. */
  lemma {:induction false} ProductIsDot(g: Gemm, a: Fragments, b: Fragments, r: nat, n: nat, row: nat, tok: nat, c: nat, j: nat)
    requires g.Valid() && Shaped(a, 8) && Shaped(b, 4) && r < 16 && n < 8 && j <= 16 && c + 16 <= g.Columns()
    requires forall k: nat | k < 16 :: MatA(a, r, k) == g.MaskedWeight(row, c + k)
    requires forall k: nat | k < 16 :: MatB(b, k, n) == g.MaskedActivation(tok, c + k)
    ensures g.MaskedDot(row, tok, c + j) == g.MaskedDot(row, tok, c) + Product(a, b, r, n, j)
  {
    hide Gemm.Valid, Gemm.Weight, Gemm.Activation, Gemm.Columns, MatA, MatB;
    if j > 0 {
      ProductIsDot(g, a, b, r, n, row, tok, c, j - 1);
      assert MatA(a, r, j - 1) == g.MaskedWeight(row, c + (j - 1));
      assert MatB(b, j - 1, n) == g.MaskedActivation(tok, c + (j - 1));
    }
  }

  /** Each accumulator of the warp holds the first upTo terms of its own output. */
  ghost predicate Accumulated(g: Gemm, d: Fragments, rowBase: nat, tokBase: nat, upTo: nat): (ok: bool)
    requires g.Valid() && upTo <= g.Columns()
    ensures ok ==> Shaped(d, 4)
  {
    && Shaped(d, 4)
    && forall l: nat, i: nat | l < 32 && i < 4 :: d[l][i] == g.MaskedDot(rowBase + RowOf(l, i), tokBase + ColOf(l, i), upTo)
  }

  lemma LaneRanges(l: nat, i: nat)
    requires l < 32 && i < 4
    ensures RowOf(l, i) < 16 && ColOf(l, i) < 8
  {
  }

  /** One instruction adds sixteen terms to every accumulator. */
  lemma MmaAccumulates(g: Gemm, d: Fragments, a: Fragments, b: Fragments, rowBase: nat, tokBase: nat, c: nat)
    requires g.Valid() && c + 16 <= g.Columns() && Shaped(a, 8) && Shaped(b, 4)
    requires Accumulated(g, d, rowBase, tokBase, c)
    requires forall r: nat, k: nat | r < 16 && k < 16 :: MatA(a, r, k) == g.MaskedWeight(rowBase + r, c + k)
    requires forall k: nat, n: nat | k < 16 && n < 8 :: MatB(b, k, n) == g.MaskedActivation(tokBase + n, c + k)
    ensures Accumulated(g, Mma(d, a, b), rowBase, tokBase, c + 16)
  {
    hide Gemm.Valid, Gemm.MaskedDot, Gemm.MaskedWeight, Gemm.MaskedActivation, Gemm.Columns, MatA, MatB, RowOf, ColOf, Product;
    var d' := Mma(d, a, b);
    forall l: nat, i: nat | l < 32 && i < 4
      ensures d'[l][i] == g.MaskedDot(rowBase + RowOf(l, i), tokBase + ColOf(l, i), c + 16)
    {
      LaneRanges(l, i);
      ProductIsDot(g, a, b, RowOf(l, i), ColOf(l, i), rowBase + RowOf(l, i), tokBase + ColOf(l, i), c, 16);
      assert d'[l][i] == MmaLane(d, a, b, l, i);
    }
  }

  /** Step 2b: the two instructions of one warp over the 32 columns of the tile. */
  method WarpMmas(g: Gemm, tile: array2<real>, rowBase: nat, tokBase: nat, b: nat, sb: nat, d: Fragments) returns (d': Fragments)
    requires g.Valid() && b < g.Blocks() && sb < 8
    requires tile.Length0 == TILE_M && tile.Length1 == 32
    requires Column(b, sb, 31) < g.Columns()
    requires forall row: nat, col: nat | row < TILE_M && col < 32 ::
               tile[row, col] == g.MaskedWeight(rowBase + row, Column(b, sb, col))
    requires Accumulated(g, d, rowBase, tokBase, Column(b, sb, 0))
    ensures Accumulated(g, d', rowBase, tokBase, Column(b, sb, 0) + 32)
  {
    hide Gemm.Valid, Gemm.MaskedWeight, Gemm.MaskedActivation, Gemm.Columns, Gemm.Blocks, Accumulated, MatA, MatB, Mma;
    d' := d;
    for km := 0 to 2
      invariant Accumulated(g, d', rowBase, tokBase, Column(b, sb, 0) + 16 * km)
    {
      var ka := km * 16;
      var fa := LoadA(tile, ka);
      var fb := LoadB(g, tokBase, Column(b, sb, 0) + ka);
      forall r: nat, k: nat | r < 16 && k < 16 ensures MatA(fa, r, k) == g.MaskedWeight(rowBase + r, Column(b, sb, 0) + ka + k) {
        assert MatA(fa, r, k) == tile[r, ka + k];
      }
      MmaAccumulates(g, d', fa, fb, rowBase, tokBase, Column(b, sb, 0) + ka);
      d' := Mma(d', fa, fb);
    }
  }

  // ---- Writing the tile back ----

  /** The four outputs of one lane. */
  predicate LaneOwns(rowBase: nat, tokBase: nat, lane: nat, r: nat, t: nat) {
    && (r == rowBase + lane / 4 || r == rowBase + lane / 4 + 8)
    && (t == tokBase + lane % 4 * 2 || t == tokBase + lane % 4 * 2 + 1)
  }

  predicate InTile(rowBase: nat, tokBase: nat, width: nat, r: nat, t: nat) {
    rowBase <= r < rowBase + TILE_M && tokBase <= t < tokBase + width
  }

  method Put(g: Gemm, y: array<real>, r: nat, t: nat, v: real)
    requires y.Length == g.n * g.m && r < g.m
    modifies y
    ensures t < g.n ==> Flat(t, r, g.m) < y.Length && y[Flat(t, r, g.m)] == v
    ensures forall t': nat, r': nat | t' < g.n && r' < g.m && (t' != t || r' != r) ::
              Flat(t', r', g.m) < y.Length && y[Flat(t', r', g.m)] == old(y[Flat(t', r', g.m)])
  {
    hide Flat;
    InRangeAll(g.n, g.m);
    if t < g.n {
      InjectiveAt(t, r, g.m);
      y[Flat(t, r, g.m)] := v;
    }
  }

  method LaneWriteback(g: Gemm, y: array<real>, d: seq<real>, rowBase: nat, tokBase: nat, lane: nat)
    requires y.Length == g.n * g.m && |d| == 4 && lane < 32
    modifies y
    ensures forall i: nat | i < 4 && rowBase + RowOf(lane, i) < g.m && tokBase + ColOf(lane, i) < g.n ::
              var f := Flat(tokBase + ColOf(lane, i), rowBase + RowOf(lane, i), g.m); f < y.Length && y[f] == d[i]
    ensures forall t: nat, r: nat | t < g.n && r < g.m && !LaneOwns(rowBase, tokBase, lane, r, t) ::
              Flat(t, r, g.m) < y.Length && y[Flat(t, r, g.m)] == old(y[Flat(t, r, g.m)])
  {
    hide Flat, RowOf, ColOf;
    InRangeAll(g.n, g.m);
    LaneCells(lane);
    var tok := tokBase + lane % 4 * 2;
    PutPair(g, y, rowBase + lane / 4, tok, d[0], d[1]);
    PutPair(g, y, rowBase + lane / 4 + 8, tok, d[2], d[3]);
  }

  /** One row of a lane's outputs: two adjacent tokens. */
  method PutPair(g: Gemm, y: array<real>, r: nat, tok0: nat, v0: real, v1: real)
    requires y.Length == g.n * g.m
    modifies y
    ensures r < g.m && tok0 < g.n ==> Flat(tok0, r, g.m) < y.Length && y[Flat(tok0, r, g.m)] == v0
    ensures r < g.m && tok0 + 1 < g.n ==> Flat(tok0 + 1, r, g.m) < y.Length && y[Flat(tok0 + 1, r, g.m)] == v1
    ensures forall t': nat, r': nat | t' < g.n && r' < g.m && ((t' != tok0 && t' != tok0 + 1) || r' != r) ::
              Flat(t', r', g.m) < y.Length && y[Flat(t', r', g.m)] == old(y[Flat(t', r', g.m)])
  {
    hide Flat;
    InRangeAll(g.n, g.m);
    if r < g.m {
      Put(g, y, r, tok0, v0);
      Put(g, y, r, tok0 + 1, v1);
    }
  }

  lemma LaneCells(l: nat)
    requires l < 32
    ensures RowOf(l, 0) == l / 4 && RowOf(l, 1) == l / 4 && RowOf(l, 2) == l / 4 + 8 && RowOf(l, 3) == l / 4 + 8
    ensures ColOf(l, 0) == l % 4 * 2 && ColOf(l, 1) == l % 4 * 2 + 1
    ensures ColOf(l, 2) == l % 4 * 2 && ColOf(l, 3) == l % 4 * 2 + 1
  {
  }

  lemma LanesDisjoint(rowBase: nat, tokBase: nat, lane: nat, l: nat, i: nat)
    requires l < lane < 32 && i < 4
    ensures !LaneOwns(rowBase, tokBase, lane, rowBase + RowOf(l, i), tokBase + ColOf(l, i))
  {
  }

  lemma LaneInTile(rowBase: nat, tokBase: nat, lane: nat, r: nat, t: nat)
    requires lane < 32 && LaneOwns(rowBase, tokBase, lane, r, t)
    ensures InTile(rowBase, tokBase, TILE_N, r, t)
  {
  }

  method WarpWriteback(g: Gemm, y: array<real>, d: Fragments, rowBase: nat, tokBase: nat)
    requires g.Valid() && y.Length == g.n * g.m && Accumulated(g, d, rowBase, tokBase, g.Columns())
    modifies y
    ensures forall t: nat, r: nat | t < g.n && r < g.m :: Flat(t, r, g.m) < y.Length && y[Flat(t, r, g.m)]
              == if InTile(rowBase, tokBase, TILE_N, r, t) then g.Dot(r, t, g.Columns()) else old(y[Flat(t, r, g.m)])
  {
    hide Flat, Gemm.Valid, Gemm.Dot, Gemm.Columns, RowOf, ColOf, LaneOwns;
    InRangeAll(g.n, g.m);
    for lane := 0 to 32
      invariant forall l: nat, i: nat | l < lane && i < 4 && rowBase + RowOf(l, i) < g.m && tokBase + ColOf(l, i) < g.n ::
                  y[Flat(tokBase + ColOf(l, i), rowBase + RowOf(l, i), g.m)] == d[l][i]
      invariant forall t: nat, r: nat | t < g.n && r < g.m && !InTile(rowBase, tokBase, TILE_N, r, t) ::
                  y[Flat(t, r, g.m)] == old(y[Flat(t, r, g.m)])
    {
      LaneWriteback(g, y, d[lane], rowBase, tokBase, lane);
      forall l: nat, i: nat | l < lane && i < 4
        ensures !LaneOwns(rowBase, tokBase, lane, rowBase + RowOf(l, i), tokBase + ColOf(l, i))
      {
        LanesDisjoint(rowBase, tokBase, lane, l, i);
      }
      forall t: nat, r: nat | LaneOwns(rowBase, tokBase, lane, r, t) ensures InTile(rowBase, tokBase, TILE_N, r, t) {
        LaneInTile(rowBase, tokBase, lane, r, t);
      }
    }
    forall t: nat, r: nat | t < g.n && r < g.m && InTile(rowBase, tokBase, TILE_N, r, t)
      ensures y[Flat(t, r, g.m)] == g.Dot(r, t, g.Columns())
    {
      AccumulatorOwner(r - rowBase, t - tokBase);
    }
  }

  /** The kernel for block (gx, gy) of the grid: K loop, then writeback. */
  method GemmBlock(g: Gemm, y: array<real>, gx: nat, gy: nat)
    requires g.Valid() && y.Length == g.n * g.m
    modifies y
    ensures forall t: nat, r: nat | t < g.n && r < g.m :: Flat(t, r, g.m) < y.Length && y[Flat(t, r, g.m)]
              == if InTile(gy * TILE_M, gx * BLOCK_N, BLOCK_N, r, t) then g.Dot(r, t, g.Columns()) else old(y[Flat(t, r, g.m)])
  {
    hide Flat, Gemm.Dot;
    InRangeAll(g.n, g.m);
    var rowBase, blkTokBase := gy * TILE_M, gx * BLOCK_N;
    if rowBase >= g.m {
      return;
    }
    var d := KLoop(g, rowBase, blkTokBase);
    for warp := 0 to N_WARPS
      invariant forall t: nat, r: nat | t < g.n && r < g.m :: y[Flat(t, r, g.m)]
                  == if InTile(rowBase, blkTokBase, warp * TILE_N, r, t) then g.Dot(r, t, g.Columns()) else old(y[Flat(t, r, g.m)])
    {
      WarpWriteback(g, y, d[warp], rowBase, blkTokBase + warp * TILE_N);
    }
  }

  ghost predicate AllAccumulated(g: Gemm, d: seq<Fragments>, rowBase: nat, tokBase: nat, upTo: nat)
    requires g.Valid() && upTo <= g.Columns()
  {
    |d| == N_WARPS && forall w | 0 <= w < N_WARPS :: Accumulated(g, d[w], rowBase, tokBase + w * TILE_N, upTo)
  }

  lemma ZeroAccumulated(g: Gemm, d: Fragments, rowBase: nat, tokBase: nat)
    requires g.Valid() && Shaped(d, 4) && forall l: nat, i: nat | l < 32 && i < 4 :: d[l][i] == 0.0
    ensures Accumulated(g, d, rowBase, tokBase, 0)
  {
  }

  /** The loop over weight blocks; the result is every warp's accumulators. */
  method KLoop(g: Gemm, rowBase: nat, blkTokBase: nat) returns (d: seq<Fragments>)
    requires g.Valid()
    ensures AllAccumulated(g, d, rowBase, blkTokBase, g.Columns())
  {
    hide Gemm.Valid, Gemm.Dot, Gemm.Weight, Gemm.Activation, ScaleD, ScaleM, Accumulated;
    var zero := seq(32, _ => [0.0, 0.0, 0.0, 0.0]);
    d := [zero, zero, zero, zero];
    forall w | 0 <= w < N_WARPS ensures Accumulated(g, d[w], rowBase, blkTokBase + w * TILE_N, 0) {
      ZeroAccumulated(g, d[w], rowBase, blkTokBase + w * TILE_N);
    }
    var tile, perD, perDm := new real[TILE_M, 32], new real[TILE_M, 8], new real[TILE_M, 8];
    for b := 0 to g.Blocks()
      invariant AllAccumulated(g, d, rowBase, blkTokBase, b * QK_K)
    {
      LoadScales(g, rowBase, b, perD, perDm);
      d := SubBlocks(g, rowBase, blkTokBase, b, perD, perDm, tile, d);
    }
  }

  method SubBlocks(g: Gemm, rowBase: nat, blkTokBase: nat, b: nat,
                   perD: array2<real>, perDm: array2<real>, tile: array2<real>, start: seq<Fragments>)
    returns (d: seq<Fragments>)
    requires g.Valid() && b < g.Blocks() && b * QK_K + QK_K <= g.Columns()
    requires perD.Length0 == perDm.Length0 == tile.Length0 == TILE_M
    requires perD.Length1 == perDm.Length1 == 8 && tile.Length1 == 32 && tile != perD && tile != perDm
    requires forall row: nat, sb: nat | row < TILE_M && sb < 8 ::
               perD[row, sb] == ScaleD(g, rowBase + row, b, sb) && perDm[row, sb] == ScaleM(g, rowBase + row, b, sb)
    requires AllAccumulated(g, start, rowBase, blkTokBase, b * QK_K)
    modifies tile
    ensures AllAccumulated(g, d, rowBase, blkTokBase, (b + 1) * QK_K)
  {
    hide Gemm.Valid, Gemm.MaskedWeight, Gemm.Columns, Gemm.Blocks, ScaleD, ScaleM, Accumulated;
    d := start;
    for sb := 0 to 8
      invariant AllAccumulated(g, d, rowBase, blkTokBase, b * QK_K + sb * 32)
    {
      DequantTile(g, rowBase, b, sb, perD, perDm, tile);
      for warp := 0 to N_WARPS
        modifies {}
        invariant |d| == N_WARPS
        invariant forall w | 0 <= w < warp :: Accumulated(g, d[w], rowBase, blkTokBase + w * TILE_N, b * QK_K + sb * 32 + 32)
        invariant forall w | warp <= w < N_WARPS :: Accumulated(g, d[w], rowBase, blkTokBase + w * TILE_N, b * QK_K + sb * 32)
      {
        var dw := WarpMmas(g, tile, rowBase, blkTokBase + warp * TILE_N, b, sb, d[warp]);
        d := d[warp := dw];
      }
    }
  }

  // ---- The grid ----

  function CeilDiv(a: nat, b: nat): (q: nat)
    requires b > 0
    ensures (q - 1) * b < a <= q * b
  {
    (a + b - 1) / b
  }

  /** All blocks of the launch, in any fixed order: every output is the full dot product. */
  method GemmMmq(g: Gemm, y: array<real>)
    requires g.Valid() && y.Length == g.n * g.m
    modifies y
    ensures forall t: nat, r: nat | t < g.n && r < g.m :: Flat(t, r, g.m) < y.Length && y[Flat(t, r, g.m)] == g.Dot(r, t, g.Columns())
    ensures IsProduct(g, y[..])
  {
    hide Flat, Gemm.Dot, Gemm.Valid;
    InRangeAll(g.n, g.m);
    for gy := 0 to CeilDiv(g.m, TILE_M)
      invariant forall t: nat, r: nat | t < g.n && r < g.m && r < gy * TILE_M :: y[Flat(t, r, g.m)] == g.Dot(r, t, g.Columns())
    {
      for gx := 0 to CeilDiv(g.n, BLOCK_N)
        invariant forall t: nat, r: nat | t < g.n && r < g.m && r < gy * TILE_M :: y[Flat(t, r, g.m)] == g.Dot(r, t, g.Columns())
        invariant forall t: nat, r: nat | t < g.n && r < g.m && r < (gy + 1) * TILE_M && t < gx * BLOCK_N ::
                    y[Flat(t, r, g.m)] == g.Dot(r, t, g.Columns())
      {
        GemmBlock(g, y, gx, gy);
      }
    }
    ArrayIsProduct(g, y);
  }

  function WarpOf(t: nat): nat { t / 8 % 4 }

  function LaneOf(r: nat, t: nat): nat { r % 8 * 4 + t % 8 / 2 }

  function IndexOf(r: nat, t: nat): nat { 2 * (r % 16 / 8) + t % 2 }

  /** Each output belongs to one block of the grid, one warp of it, one lane and one accumulator. */
  lemma OutputOwner(r: nat, t: nat, gy: nat, gx: nat, warp: nat, l: nat, i: nat)
    requires warp < N_WARPS && l < 32 && i < 4
    ensures (r == gy * TILE_M + RowOf(l, i) && t == gx * BLOCK_N + warp * TILE_N + ColOf(l, i))
       <==> (gy == r / 16 && gx == t / 32 && warp == WarpOf(t) && l == LaneOf(r, t) && i == IndexOf(r, t))
  {
    hide RowOf, ColOf, LaneOf, WarpOf, IndexOf;
    LaneRanges(l, i);
    if r == gy * TILE_M + RowOf(l, i) && t == gx * BLOCK_N + warp * TILE_N + ColOf(l, i) {
      DivModUnique(r, 16, gy, RowOf(l, i));
      TokenParts(t, gx, warp, ColOf(l, i));
      LaneParts(r, t);
      AccumulatorOwner(RowOf(l, i), ColOf(l, i));
    } else if gy == r / 16 && gx == t / 32 && warp == WarpOf(t) && l == LaneOf(r, t) && i == IndexOf(r, t) {
      LaneParts(r, t);
      TokenParts(t, t / 32, WarpOf(t), t % 8);
      AccumulatorOwner(r % 16, t % 8);
    }
  }

  lemma TokenParts(t: nat, gx: nat, warp: nat, c: nat)
    requires warp < N_WARPS && c < 8
    ensures t == gx * BLOCK_N + warp * TILE_N + c <==> gx == t / 32 && warp == WarpOf(t) && c == t % 8
  {
    if t == gx * BLOCK_N + warp * TILE_N + c {
      DivModUnique(t, 32, gx, warp * 8 + c);
      DivModUnique(t, 8, gx * 4 + warp, c);
      DivModUnique(gx * 4 + warp, 4, gx, warp);
    }
    TokenDigits(t);
  }

  lemma TokenDigits(t: nat)
    ensures t == t / 32 * BLOCK_N + WarpOf(t) * TILE_N + t % 8
  {
    var q := t / 8;
    DivModUnique(t, 32, q / 4, q % 4 * 8 + t % 8);
  }

  lemma LaneParts(r: nat, t: nat)
    ensures LaneOf(r, t) == r % 16 % 8 * 4 + t % 8 / 2 && IndexOf(r, t) == 2 * (r % 16 / 8) + t % 8 % 2
    ensures WarpOf(t) < N_WARPS && r == r / 16 * 16 + r % 16
  {
    SixteensInEights(r);
    EightsInTwos(t);
  }

  lemma SixteensInEights(r: nat)
    ensures r % 16 % 8 == r % 8
  {
    var a, b := r / 16, r % 16;
    DivModUnique(r, 8, 2 * a + b / 8, b % 8);
  }

  lemma EightsInTwos(t: nat)
    ensures t % 8 % 2 == t % 2
  {
    var a, b := t / 8, t % 8;
    DivModUnique(t, 2, 4 * a + b / 2, b % 2);
  }

  /** The fast form computes what the simple form computes, for every shape. */
  method MmqAgreesWithHost(g: Gemm) returns (tiled: array<real>, simple: array<real>)
    requires g.Valid()
    ensures fresh(tiled) && fresh(simple) && tiled[..] == simple[..]
  {
    tiled, simple := new real[g.n * g.m], new real[g.n * g.m];
    GemmMmq(g, tiled);
    HostReference(g, simple);
    forall f | 0 <= f < tiled.Length ensures tiled[f] == simple[f] {
      FlatOnto(f, g.n, g.m);
    }
  }

  /** Every place of an n x m table is the flat index of one (row, column). */
  lemma FlatOnto(f: nat, height: nat, width: nat)
    requires f < height * width
    ensures width > 0 && f / width < height && f % width < width && Flat(f / width, f % width, width) == f
  {
    if f / width >= height {
      MulMono(height, f / width, width);
    }
  }

  function TileRow(t: nat): nat { t / 8 }

  function TileCol(t: nat, s: nat): nat { t % 8 * 4 + s }

  /** Every cell of the tile, and every scale pair, is written by exactly one thread. */
  lemma TileCellOwner(row: nat, col: nat)
    requires row < TILE_M && col < 32
    ensures var t, s := row * 8 + col / 4, col % 4; t < 128 && s < 4 && TileRow(t) == row && TileCol(t, s) == col
    ensures forall t: nat, s: nat | t < 128 && s < 4 && TileRow(t) == row && TileCol(t, s) == col ::
              t == row * 8 + col / 4 && s == col % 4
  {
  }

  lemma ScaleOwner(row: nat, sb: nat)
    requires row < TILE_M && sb < 8
    ensures row * 8 + sb < 128 && TileRow(row * 8 + sb) == row && (row * 8 + sb) % 8 == sb
    ensures forall t: nat | t < 128 && TileRow(t) == row && t % 8 == sb :: t == row * 8 + sb
  {
  }
}
