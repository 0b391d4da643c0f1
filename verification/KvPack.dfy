/**
 Copying the pool out, cutting a saved body down to a prefix, and copying it back.

 The three loops copy whole key blocks and value blocks with three different strides. Each is
 proved to move rows: position p of layer l keeps its key and its value, whatever the context
 length the two sides are laid out for.
 */
module KvPack {
  import opened Common
  import opened KvPool

  /** Row r of a byte string cut into rows of w bytes; empty when the string is too short. */
  function Cell(s: seq<byte>, w: nat, r: nat): seq<byte> {
    if r * w + w <= |s| then s[r * w..r * w + w] else []
  }

  /** The key or value row of a slot in a slab laid out for ctx positions. */
  function At(s: seq<byte>, ctx: nat, w: nat, slot: Slot): seq<byte> {
    Cell(s, w, Row(ctx, slot.layer, slot.isValue, slot.pos))
  }

  /** `dst` (laid out for dctx) and `src` (laid out for sctx) agree on every position below n. */
  ghost predicate SameRows(layers: nat, w: nat, n: nat, dst: seq<byte>, dctx: nat, src: seq<byte>, sctx: nat) {
    forall slot: Slot | InShape(layers, n, slot) :: At(dst, dctx, w, slot) == At(src, sctx, w, slot)
  }

  /** `body` is the packed image of the first u positions of `pool`. */
  ghost predicate IsPacked(layers: nat, w: nat, u: nat, body: seq<byte>, pool: seq<byte>, ctx: nat) {
    |body| == layers * (2 * u) * w && SameRows(layers, w, u, body, u, pool, ctx)
  }

  // ---- Rows of spliced strings ----

  function Splice(t: seq<byte>, d: nat, x: seq<byte>): (r: seq<byte>)
    requires d + |x| <= |t|
    ensures |r| == |t|
  {
    t[..d] + x + t[d + |x|..]
  }

  lemma SpliceCell(t: seq<byte>, d: nat, x: seq<byte>, w: nat, n: nat, r: nat)
    requires |x| == n * w && d * w + n * w <= |t|
    ensures Cell(Splice(t, d * w, x), w, r)
         == if d <= r < d + n then Cell(x, w, r - d) else Cell(t, w, r)
  {
    hide Splice;
    if d <= r < d + n {
      var i := r - d;
      assert i * w + w <= n * w by { MulMono(i + 1, n, w); assert (i + 1) * w == i * w + w; }
      assert r * w == d * w + i * w;
      SpliceInside(t, d * w, x, i * w, w);
    } else if r * w + w <= |t| {
      assert (d + n) * w == d * w + n * w;
      if r < d {
        MulMono(r + 1, d, w);
        assert (r + 1) * w == r * w + w;
      } else {
        MulMono(d + n, r, w);
      }
      SpliceOutside(t, d * w, x, r * w, w);
    }
  }

  lemma SpliceInside(t: seq<byte>, d: nat, x: seq<byte>, i: nat, w: nat)
    requires d + |x| <= |t| && i + w <= |x|
    ensures Splice(t, d, x)[d + i..d + i + w] == x[i..i + w]
  {
  }

  lemma SpliceOutside(t: seq<byte>, d: nat, x: seq<byte>, i: nat, w: nat)
    requires d + |x| <= |t| && i + w <= |t| && (i + w <= d || d + |x| <= i)
    ensures Splice(t, d, x)[i..i + w] == t[i..i + w]
  {
  }

  lemma SubCell(src: seq<byte>, s: nat, w: nat, n: nat, i: nat)
    requires s * w + n * w <= |src| && i < n
    ensures Cell(src[s * w..s * w + n * w], w, i) == Cell(src, w, s + i)
  {
    assert i * w + w <= n * w by { MulMono(i + 1, n, w); assert (i + 1) * w == i * w + w; }
    assert (s + i) * w == s * w + i * w;
    SliceOfSlice(src, s * w, n * w, i * w, w);
  }

  lemma SliceOfSlice(src: seq<byte>, a: nat, n: nat, b: nat, k: nat)
    requires a + n <= |src| && b + k <= n
    ensures src[a..a + n][b..b + k] == src[a + b..a + b + k]
  {
    var x, y := src[a..a + n][b..b + k], src[a + b..a + b + k];
    forall i | 0 <= i < k ensures x[i] == y[i] {
      assert x[i] == src[a..a + n][b + i];
    }
  }

  lemma ZeroCell(w: nat, n: nat, i: nat)
    requires i < n
    ensures Cell(Zeros(n * w), w, i) == Zeros(w)
  {
    assert i * w + w <= n * w by { MulMono(i + 1, n, w); assert (i + 1) * w == i * w + w; }
  }

  /** Rows [Row(p0), Row(p0) + n) of one half are exactly positions [p0, p0 + n) of that half. */
  lemma HalfRows(ctx: nat, l: nat, v: bool, p0: nat, n: nat, slot: Slot)
    requires p0 + n <= ctx && slot.pos < ctx
    ensures var d, r := Row(ctx, l, v, p0), Row(ctx, slot.layer, slot.isValue, slot.pos);
            && (d <= r < d + n <==> slot.layer == l && slot.isValue == v && p0 <= slot.pos < p0 + n)
            && (d <= r < d + n ==> r - d == slot.pos - p0)
  {
    var d, r := Row(ctx, l, v, p0), Row(ctx, slot.layer, slot.isValue, slot.pos);
    if slot.layer < l {
      MulMono(slot.layer + 1, l, 2 * ctx);
    } else if slot.layer > l {
      MulMono(l + 1, slot.layer, 2 * ctx);
    }
    assert (slot.layer + 1) * (2 * ctx) == slot.layer * (2 * ctx) + 2 * ctx;
    assert (l + 1) * (2 * ctx) == l * (2 * ctx) + 2 * ctx;
  }

  lemma HalfFits(layers: nat, ctx: nat, w: nat, l: nat, v: bool, p0: nat, n: nat)
    requires l < layers && p0 + n <= ctx
    ensures Row(ctx, l, v, p0) * w + n * w <= layers * (2 * ctx) * w
  {
    LayerRows(layers, ctx, l);
    ScaleBound(Row(ctx, l, v, p0), n, layers * (2 * ctx), w);
  }

  lemma LayerRows(layers: nat, ctx: nat, l: nat)
    requires l < layers
    ensures l * (2 * ctx) + 2 * ctx <= layers * (2 * ctx)
  {
    MulMono(l + 1, layers, 2 * ctx);
    assert (l + 1) * (2 * ctx) == l * (2 * ctx) + 2 * ctx;
  }

  lemma ScaleBound(d: nat, n: nat, total: nat, w: nat)
    requires d + n <= total
    ensures d * w + n * w <= total * w
  {
    MulMono(d + n, total, w);
    assert (d + n) * w == d * w + n * w;
  }

  /** Writing x over n rows of one half changes those positions of that half and nothing else. */
  lemma SpliceHalf(ctx: nat, w: nat, t: seq<byte>, l: nat, v: bool, p0: nat, n: nat, x: seq<byte>, slot: Slot)
    requires p0 + n <= ctx && slot.pos < ctx && |x| == n * w
    requires Row(ctx, l, v, p0) * w + n * w <= |t|
    ensures At(Splice(t, Row(ctx, l, v, p0) * w, x), ctx, w, slot)
         == if slot.layer == l && slot.isValue == v && p0 <= slot.pos < p0 + n
            then Cell(x, w, slot.pos - p0) else At(t, ctx, w, slot)
  {
    HalfRows(ctx, l, v, p0, n, slot);
    SpliceCell(t, Row(ctx, l, v, p0), x, w, n, Row(ctx, slot.layer, slot.isValue, slot.pos));
  }

  // ---- Layout-to-layout copies ----

  /** The first n rows of one half of layer l. */
  function Block(s: seq<byte>, ctx: nat, w: nat, l: nat, v: bool, n: nat): seq<byte> {
    var d := Row(ctx, l, v, 0) * w;
    if d + n * w <= |s| then s[d..d + n * w] else []
  }

  lemma BlockCell(layers: nat, s: seq<byte>, ctx: nat, w: nat, l: nat, v: bool, n: nat, p: nat)
    requires l < layers && p < n <= ctx && |s| >= layers * (2 * ctx) * w
    ensures |Block(s, ctx, w, l, v, n)| == n * w
    ensures Cell(Block(s, ctx, w, l, v, n), w, p) == At(s, ctx, w, Slot(l, v, p))
  {
    HalfFits(layers, ctx, w, l, v, 0, n);
    BlockRow(s, Row(ctx, l, v, 0), w, n, p);
    assert Row(ctx, l, v, p) == Row(ctx, l, v, 0) + p;
  }

  lemma BlockRow(s: seq<byte>, d: nat, w: nat, n: nat, p: nat)
    requires d * w + n * w <= |s| && p < n
    ensures |s[d * w..d * w + n * w]| == n * w
    ensures Cell(s[d * w..d * w + n * w], w, p) == Cell(s, w, d + p)
  {
    SubCell(s, d, w, n, p);
  }

  /** After the key block and the value block of layer l were copied: n positions moved, the rest kept. */
  lemma LayerCopied(layers: nat, w: nat, l: nat, n: nat, t: seq<byte>, t1: seq<byte>, t2: seq<byte>, dctx: nat,
                    src: seq<byte>, sctx: nat, slot: Slot)
    requires l < layers && n <= dctx && n <= sctx && slot.pos < dctx
    requires |src| >= layers * (2 * sctx) * w
    requires |Block(src, sctx, w, l, false, n)| == |Block(src, sctx, w, l, true, n)| == n * w
    requires Row(dctx, l, false, 0) * w + n * w <= |t| && Row(dctx, l, true, 0) * w + n * w <= |t|
    requires t1 == Splice(t, Row(dctx, l, false, 0) * w, Block(src, sctx, w, l, false, n))
    requires t2 == Splice(t1, Row(dctx, l, true, 0) * w, Block(src, sctx, w, l, true, n))
    ensures At(t2, dctx, w, slot)
         == if slot.layer == l && slot.pos < n then At(src, sctx, w, slot) else At(t, dctx, w, slot)
  {
    var x1, x2 := Block(src, sctx, w, l, false, n), Block(src, sctx, w, l, true, n);
    SpliceHalf(dctx, w, t, l, false, 0, n, x1, slot);
    SpliceHalf(dctx, w, t1, l, true, 0, n, x2, slot);
    if slot.layer == l && slot.pos < n {
      BlockCell(layers, src, sctx, w, l, slot.isValue, n, slot.pos);
    }
  }

  /** After both memsets of layer l: its positions from n on are zero, everything else is kept. */
  lemma LayerZeroed(w: nat, l: nat, n: nat, t: seq<byte>, t1: seq<byte>, t2: seq<byte>, ctx: nat, slot: Slot)
    requires n <= ctx && slot.pos < ctx
    requires Row(ctx, l, false, n) * w + (ctx - n) * w <= |t| && Row(ctx, l, true, n) * w + (ctx - n) * w <= |t|
    requires t1 == Splice(t, Row(ctx, l, false, n) * w, Zeros((ctx - n) * w))
    requires t2 == Splice(t1, Row(ctx, l, true, n) * w, Zeros((ctx - n) * w))
    ensures At(t2, ctx, w, slot)
         == if slot.layer == l && n <= slot.pos then Zeros(w) else At(t, ctx, w, slot)
  {
    SpliceHalf(ctx, w, t, l, false, n, ctx - n, Zeros((ctx - n) * w), slot);
    SpliceHalf(ctx, w, t1, l, true, n, ctx - n, Zeros((ctx - n) * w), slot);
    if slot.layer == l && n <= slot.pos {
      ZeroCell(w, ctx - n, slot.pos - n);
    }
  }

  // ---- What rows determine ----

  /** Two strings of one shape with the same rows are the same string. */
  lemma {:induction false} RowsDetermine(layers: nat, ctx: nat, w: nat, a: seq<byte>, b: seq<byte>)
    requires |a| == layers * (2 * ctx) * w && |b| == |a|
    requires SameRows(layers, w, ctx, a, ctx, b, ctx)
    ensures a == b
  {
    forall i | 0 <= i < |a| ensures a[i] == b[i] {
      if w == 0 || ctx == 0 {
        assert false;
      } else {
        var r := RowIndex(layers * (2 * ctx), w, i);
        RowOfRowSlot(layers, ctx, r);
        var slot := RowSlot(ctx, r);
        RowFits(layers, ctx, w, slot);
        assert At(a, ctx, w, slot) == At(b, ctx, w, slot);
        assert a[i] == Cell(a, w, r)[i - r * w];
        assert b[i] == Cell(b, w, r)[i - r * w];
      }
    }
  }

  /** A packed body is a function of the pool and the token count. */
  lemma PackedIsUnique(layers: nat, w: nat, u: nat, a: seq<byte>, b: seq<byte>, pool: seq<byte>, ctx: nat)
    requires IsPacked(layers, w, u, a, pool, ctx) && IsPacked(layers, w, u, b, pool, ctx)
    ensures a == b
  {
    RowsDetermine(layers, u, w, a, b);
  }

  /** Cutting a body packed for u tokens down to m gives exactly the body packed for m tokens. */
  lemma CompactOfPacked(layers: nat, w: nat, u: nat, m: nat, full: seq<byte>, cut: seq<byte>, direct: seq<byte>,
                        pool: seq<byte>, ctx: nat)
    requires m <= u <= ctx
    requires IsPacked(layers, w, u, full, pool, ctx)
    requires IsPacked(layers, w, m, cut, full, u)
    requires IsPacked(layers, w, m, direct, pool, ctx)
    ensures cut == direct
  {
    forall slot: Slot | InShape(layers, m, slot) ensures At(cut, m, w, slot) == At(direct, m, w, slot) {
      assert At(full, u, w, slot) == At(pool, ctx, w, slot);
    }
    RowsDetermine(layers, m, w, cut, direct);
  }

  /** What the pool must hold after restoring m positions of a body packed for m. */
  ghost predicate IsRestored(layers: nat, w: nat, m: nat, pool: seq<byte>, ctx: nat, body: seq<byte>) {
    && |pool| == layers * (2 * ctx) * w
    && SameRows(layers, w, m, pool, ctx, body, m)
    && forall slot: Slot | InShape(layers, ctx, slot) && m <= slot.pos :: At(pool, ctx, w, slot) == Zeros(w)
  }

  /** Saving u tokens and restoring m of them: positions below m come back, the rest is zero. */
  lemma SaveThenRestore(layers: nat, w: nat, u: nat, m: nat, before: seq<byte>, full: seq<byte>, cut: seq<byte>,
                        after: seq<byte>, ctx: nat)
    requires m <= u <= ctx
    requires IsPacked(layers, w, u, full, before, ctx)
    requires IsPacked(layers, w, m, cut, full, u)
    requires IsRestored(layers, w, m, after, ctx, cut)
    ensures forall slot: Slot | InShape(layers, ctx, slot) ::
              At(after, ctx, w, slot) == if slot.pos < m then At(before, ctx, w, slot) else Zeros(w)
  {
    forall slot: Slot | InShape(layers, ctx, slot)
      ensures At(after, ctx, w, slot) == if slot.pos < m then At(before, ctx, w, slot) else Zeros(w)
    {
      if slot.pos < m {
        assert InShape(layers, m, slot) && InShape(layers, u, slot);
        assert At(after, ctx, w, slot) == At(cut, m, w, slot) == At(full, u, w, slot);
      }
    }
  }

  // ---- The imperative copies ----

  method Memcpy(dst: array<byte>, d: nat, src: array<byte>, s: nat, n: nat)
    requires dst != src && d + n <= dst.Length && s + n <= src.Length
    modifies dst
    ensures dst[..] == Splice(old(dst[..]), d, src[s..s + n])
  {
    forall i | 0 <= i < n {
      dst[d + i] := src[s + i];
    }
  }

  method Memset0(dst: array<byte>, d: nat, n: nat)
    requires d + n <= dst.Length
    modifies dst
    ensures dst[..] == Splice(old(dst[..]), d, Zeros(n))
  {
    forall i | 0 <= i < n {
      dst[d + i] := 0;
    }
  }
}
