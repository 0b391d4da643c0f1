/** The pool object and the three strided copy loops that save and restore it. */
module KvCache {
  import opened Common
  import opened KvPool
  import opened KvPack

  /** The strides of the code, in bytes, name the first rows of the two halves of layer l. */
  lemma LayerStart(c: Config, ctx: nat, l: nat)
    ensures l * (ctx * c.EntryBytes()) == Row(ctx, l, false, 0) * c.HalfBytes()
    ensures l * (ctx * c.EntryBytes()) + ctx * (c.EntryBytes() / 2) == Row(ctx, l, true, 0) * c.HalfBytes()
  {
    EntryHalves(c);
    SlabAddress(l, ctx, c.HalfBytes(), false, 0);
    SlabAddress(l, ctx, c.HalfBytes(), true, 0);
  }

  lemma PackedSize(c: Config, u: nat)
    ensures c.PackedBytes(u) == c.nLayers * (2 * u) * c.HalfBytes()
  {
    EntryHalves(c);
    assert c.nLayers * u * (2 * c.HalfBytes()) == c.nLayers * (2 * u) * c.HalfBytes() by {
      RegionBytes(c.nLayers, u, c.HalfBytes());
      assert c.nLayers * u * (2 * c.HalfBytes()) == c.nLayers * (2 * c.HalfBytes()) * u;
    }
  }

  /** The two block copies of one layer; copiesOk of them succeed before one fails. */
  method CopyHalves(dst: array<byte>, dstKeys: nat, dstVals: nat, src: array<byte>, srcKeys: nat, srcVals: nat,
                    bytes: nat, copiesOk: nat,
                    ghost layers: nat, ghost w: nat, ghost l: nat, ghost n: nat, ghost dctx: nat, ghost sctx: nat)
    returns (ok: bool)
    requires dst != src && l < layers && n <= dctx && n <= sctx && bytes == n * w
    requires dst.Length >= layers * (2 * dctx) * w && src.Length >= layers * (2 * sctx) * w
    requires dstKeys == Row(dctx, l, false, 0) * w && dstVals == Row(dctx, l, true, 0) * w
    requires srcKeys == Row(sctx, l, false, 0) * w && srcVals == Row(sctx, l, true, 0) * w
    modifies dst
    ensures ok <==> 2 <= copiesOk
    ensures ok ==> forall slot: Slot | slot.pos < dctx ::
                     LayerRow(dst[..], dctx, w, slot, l, n, src[..], sctx, old(dst[..]))
  {
    assert dstKeys + bytes <= dst.Length && dstVals + bytes <= dst.Length by {
      HalfFits(layers, dctx, w, l, false, 0, n);
      HalfFits(layers, dctx, w, l, true, 0, n);
    }
    assert srcKeys + bytes <= src.Length && srcVals + bytes <= src.Length by {
      HalfFits(layers, sctx, w, l, false, 0, n);
      HalfFits(layers, sctx, w, l, true, 0, n);
    }
    if copiesOk == 0 { return false; }
    Memcpy(dst, dstKeys, src, srcKeys, bytes);
    ghost var t1 := dst[..];
    if copiesOk == 1 { return false; }
    Memcpy(dst, dstVals, src, srcVals, bytes);
    forall slot: Slot | slot.pos < dctx
      ensures LayerRow(dst[..], dctx, w, slot, l, n, src[..], sctx, old(dst[..]))
    {
      LayerCopied(layers, w, l, n, old(dst[..]), t1, dst[..], dctx, src[..], sctx, slot);
    }
    return true;
  }

  /** A row of t2 after layer l received n positions from src; every other row is that of t. */
  ghost predicate LayerRow(t2: seq<byte>, dctx: nat, w: nat, slot: Slot, l: nat, n: nat,
                           src: seq<byte>, sctx: nat, t: seq<byte>) {
    At(t2, dctx, w, slot)
      == if slot.layer == l && slot.pos < n then At(src, sctx, w, slot) else At(t, dctx, w, slot)
  }

  /** The two memsets that clear positions [n, ctx) of one layer. */
  method ZeroTails(dst: array<byte>, keys: nat, vals: nat, bytes: nat, copiesOk: nat,
                   ghost layers: nat, ghost w: nat, ghost l: nat, ghost n: nat, ghost ctx: nat)
    returns (ok: bool)
    requires l < layers && n <= ctx && bytes == (ctx - n) * w && dst.Length >= layers * (2 * ctx) * w
    requires keys == Row(ctx, l, false, n) * w && vals == Row(ctx, l, true, n) * w
    modifies dst
    ensures ok <==> 2 <= copiesOk
    ensures ok ==> forall slot: Slot | slot.pos < ctx ::
                     TailRow(dst[..], ctx, w, slot, l, n, old(dst[..]))
  {
    HalfFits(layers, ctx, w, l, false, n, ctx - n);
    HalfFits(layers, ctx, w, l, true, n, ctx - n);
    if copiesOk == 0 { return false; }
    Memset0(dst, keys, bytes);
    ghost var t1 := dst[..];
    if copiesOk == 1 { return false; }
    Memset0(dst, vals, bytes);
    forall slot: Slot | slot.pos < ctx ensures TailRow(dst[..], ctx, w, slot, l, n, old(dst[..])) {
      LayerZeroed(w, l, n, old(dst[..]), t1, dst[..], ctx, slot);
    }
    return true;
  }

  ghost predicate TailRow(t2: seq<byte>, ctx: nat, w: nat, slot: Slot, l: nat, n: nat, t: seq<byte>) {
    At(t2, ctx, w, slot) == if slot.layer == l && n <= slot.pos then Zeros(w) else At(t, ctx, w, slot)
  }

  class KVCachePool {
    const cfg: Config
    const gpuPool: array<byte>
    var usedTokens: int
    var gpuTokens: int

    ghost predicate Valid()
    {
      gpuPool.Length == cfg.nLayers * (2 * cfg.maxContext) * cfg.HalfBytes()
    }

    constructor (c: Config)
      ensures Valid() && cfg == c && fresh(gpuPool) && usedTokens == gpuTokens == 0
      ensures gpuPool[..] == Zeros(c.FastBytes())
    {
      cfg := c;
      var fastBytes := c.nLayers * c.EntryBytes() * c.maxContext;
      gpuPool := new byte[fastBytes](_ => 0);
      usedTokens, gpuTokens := 0, 0;
      new;
      EntryHalves(c);
      RegionBytes(c.nLayers, c.maxContext, c.HalfBytes());
    }

    /**
     Copies positions [0, usedTokens) of every layer into dst. `copiesOk` is the number of device
     copies that succeed before one fails.
     */
    method GatherUsedToHost(dst: array<byte>, usedTokens: int, copiesOk: nat) returns (ok: bool)
      requires Valid() && dst != gpuPool && dst.Length >= cfg.PackedBytes(usedTokens)
      modifies dst
      ensures ok <==> 0 < usedTokens <= cfg.maxContext && 2 * cfg.nLayers <= copiesOk
      ensures ok ==> SameRows(cfg.nLayers, cfg.HalfBytes(), usedTokens, dst[..], usedTokens, gpuPool[..], cfg.maxContext)
    {
      if usedTokens <= 0 { return false; }
      if usedTokens > cfg.maxContext { return false; }
      var eb := cfg.EntryBytes();
      var halfEb := eb / 2;
      var layerInStride := cfg.maxContext * eb;
      var layerOutStride := usedTokens * eb;
      var keyUsedBytes := usedTokens * halfEb;
      ghost var w := cfg.HalfBytes();
      EntryHalves(cfg);
      PackedSize(cfg, usedTokens);

      var l := 0;
      while l < cfg.nLayers
        invariant 0 <= l <= cfg.nLayers && 2 * l <= copiesOk
        invariant SameRows(l, w, usedTokens, dst[..], usedTokens, gpuPool[..], cfg.maxContext)
      {
        var srcKeys := l * layerInStride;
        var srcVals := srcKeys + cfg.maxContext * halfEb;
        var dstKeys := l * layerOutStride;
        var dstVals := dstKeys + keyUsedBytes;
        LayerBounds(cfg, usedTokens, l, usedTokens);
        LayerBounds(cfg, cfg.maxContext, l, usedTokens);
        ghost var t := dst[..];
        var layerOk := CopyHalves(dst, dstKeys, dstVals, gpuPool, srcKeys, srcVals, keyUsedBytes, copiesOk - 2 * l,
                                  cfg.nLayers, w, l, usedTokens, usedTokens, cfg.maxContext);
        if !layerOk { return false; }
        forall slot: Slot | InShape(l + 1, usedTokens, slot)
          ensures At(dst[..], usedTokens, w, slot) == At(gpuPool[..], cfg.maxContext, w, slot)
        {
          assert LayerRow(dst[..], usedTokens, w, slot, l, usedTokens, gpuPool[..], cfg.maxContext, t);
        }
        l := l + 1;
      }
      return true;
    }

    /**
     Writes a body packed for usedTokens back into the pool and, when asked to, zeroes the rest of
     every layer. A failing device call stops the loop and leaves a mixture behind.
     */
    method ScatterFromHost(src: array<byte>, usedTokens: int, zeroRemaining: bool, copiesOk: nat) returns (ok: bool)
      requires Valid() && src != gpuPool && src.Length >= cfg.PackedBytes(usedTokens)
      modifies this`usedTokens, this`gpuTokens, gpuPool
      ensures ok <==> 0 < usedTokens <= cfg.maxContext && CopiesPerLayer(usedTokens, zeroRemaining) * cfg.nLayers <= copiesOk
      ensures ok ==> this.usedTokens == this.gpuTokens == usedTokens
      ensures !ok ==> this.usedTokens == old(this.usedTokens) && this.gpuTokens == old(this.gpuTokens)
      ensures ok ==> (forall slot: Slot | InShape(cfg.nLayers, cfg.maxContext, slot) ::
                        At(gpuPool[..], cfg.maxContext, cfg.HalfBytes(), slot)
                          == RestoredRow(old(gpuPool[..]), src[..], cfg.maxContext, cfg.HalfBytes(),
                                         usedTokens, zeroRemaining, cfg.nLayers, slot))
    {
      if usedTokens <= 0 { return false; }
      if usedTokens > cfg.maxContext { return false; }
      var eb := cfg.EntryBytes();
      var halfEb := eb / 2;
      var layerOutStride := cfg.maxContext * eb;
      var layerInStride := usedTokens * eb;
      var keyUsedBytes := usedTokens * halfEb;
      var keyUnusedBytes := (cfg.maxContext - usedTokens) * halfEb;
      ghost var w := cfg.HalfBytes();
      ghost var pool0 := gpuPool[..];
      EntryHalves(cfg);
      PackedSize(cfg, usedTokens);
      var per := CopiesPerLayer(usedTokens, zeroRemaining);

      var l := 0;
      while l < cfg.nLayers
        invariant 0 <= l <= cfg.nLayers && per * l <= copiesOk
        invariant this.usedTokens == old(this.usedTokens) && this.gpuTokens == old(this.gpuTokens)
        invariant forall slot: Slot | slot.pos < cfg.maxContext ::
                    (At(gpuPool[..], cfg.maxContext, w, slot)
                      == RestoredRow(pool0, src[..], cfg.maxContext, w, usedTokens, zeroRemaining, l, slot))
      {
        var dstKeys := l * layerOutStride;
        var dstVals := dstKeys + cfg.maxContext * halfEb;
        var srcKeys := l * layerInStride;
        var srcVals := srcKeys + keyUsedBytes;
        LayerBounds(cfg, usedTokens, l, usedTokens);
        LayerBounds(cfg, cfg.maxContext, l, usedTokens);
        assert per * (l + 1) == per * l + per;
        assert per * (l + 1) <= per * cfg.nLayers by { MulMono(l + 1, cfg.nLayers, per); }
        ghost var t := gpuPool[..];
        var layerOk := CopyHalves(gpuPool, dstKeys, dstVals, src, srcKeys, srcVals, keyUsedBytes, copiesOk - per * l,
                                  cfg.nLayers, w, l, usedTokens, cfg.maxContext, usedTokens);
        if !layerOk { return false; }
        ghost var t2 := gpuPool[..];
        UnusedBytes(cfg.maxContext, usedTokens, w);
        if zeroRemaining && keyUnusedBytes > 0 {
          TailBounds(cfg, l, usedTokens);
          layerOk := ZeroTails(gpuPool, dstKeys + keyUsedBytes, dstVals + keyUsedBytes, keyUnusedBytes,
                               copiesOk - per * l - 2, cfg.nLayers, w, l, usedTokens, cfg.maxContext);
          if !layerOk { return false; }
        }
        forall slot: Slot | slot.pos < cfg.maxContext
          ensures At(gpuPool[..], cfg.maxContext, w, slot)
               == RestoredRow(pool0, src[..], cfg.maxContext, w, usedTokens, zeroRemaining, l + 1, slot)
        {
          assert LayerRow(t2, cfg.maxContext, w, slot, l, usedTokens, src[..], usedTokens, t);
          RestoreStep(t, t2, gpuPool[..], pool0, src[..], cfg.maxContext, w, usedTokens, zeroRemaining,
                      zeroRemaining && keyUnusedBytes > 0, l, slot);
        }
        l := l + 1;
      }
      this.usedTokens := usedTokens;
      this.gpuTokens := usedTokens;
      return true;
    }

    /** The rope-and-store of one position: its key row and its value row, at the pointers of the pool. */
    method Store(layer: nat, pos: nat, k: seq<byte>, v: seq<byte>)
      requires Valid() && layer < cfg.nLayers && pos < cfg.maxContext
      requires |k| == |v| == cfg.HalfBytes()
      modifies gpuPool
      ensures forall slot: Slot | slot.pos < cfg.maxContext ::
                (At(gpuPool[..], cfg.maxContext, cfg.HalfBytes(), slot)
                  == if slot == Slot(layer, false, pos) then k
                     else if slot == Slot(layer, true, pos) then v
                     else At(old(gpuPool[..]), cfg.maxContext, cfg.HalfBytes(), slot))
    {
      ghost var t, ctx, w := gpuPool[..], cfg.maxContext, cfg.HalfBytes();
      var kOff := KeyPtr(cfg, layer, pos).off;
      var vOff := ValPtr(cfg, layer, pos).off;
      FastPtrIsRow(cfg, Slot(layer, false, pos));
      FastPtrIsRow(cfg, Slot(layer, true, pos));
      HalfFits(cfg.nLayers, ctx, w, layer, false, pos, 1);
      HalfFits(cfg.nLayers, ctx, w, layer, true, pos, 1);
      PutRow(kOff, k);
      ghost var t1 := gpuPool[..];
      PutRow(vOff, v);
      forall slot: Slot | slot.pos < ctx
        ensures At(gpuPool[..], ctx, w, slot)
             == if slot == Slot(layer, false, pos) then k
                else if slot == Slot(layer, true, pos) then v else At(t, ctx, w, slot)
      {
        SpliceHalf(ctx, w, t, layer, false, pos, 1, k, slot);
        SpliceHalf(ctx, w, t1, layer, true, pos, 1, v, slot);
        assert Cell(k, w, 0) == k && Cell(v, w, 0) == v;
      }
    }

    method PutRow(off: nat, row: seq<byte>)
      requires off + |row| <= gpuPool.Length
      modifies gpuPool
      ensures gpuPool[..] == Splice(old(gpuPool[..]), off, row)
    {
      forall i | 0 <= i < |row| {
        gpuPool[off + i] := row[i];
      }
    }

    function CopiesPerLayer(usedTokens: int, zeroRemaining: bool): nat {
      if zeroRemaining && (cfg.maxContext - usedTokens) * (cfg.EntryBytes() / 2) > 0 then 4 else 2
    }
  }

  /** A pool row once the first l layers have been restored. */
  function RestoredRow(pool: seq<byte>, src: seq<byte>, ctx: nat, w: nat, used: nat, zero: bool, l: nat, slot: Slot): seq<byte> {
    if slot.layer >= l then At(pool, ctx, w, slot)
    else if slot.pos < used then At(src, used, w, slot)
    else if zero then Zeros(w)
    else At(pool, ctx, w, slot)
  }

  lemma RestoreStep(t: seq<byte>, t2: seq<byte>, t4: seq<byte>, pool: seq<byte>, src: seq<byte>, ctx: nat, w: nat,
                    used: nat, zero: bool, cleared: bool, l: nat, slot: Slot)
    requires used <= ctx && slot.pos < ctx
    requires cleared <==> zero && used < ctx && w > 0
    requires At(t, ctx, w, slot) == RestoredRow(pool, src, ctx, w, used, zero, l, slot)
    requires LayerRow(t2, ctx, w, slot, l, used, src, used, t)
    requires if cleared then TailRow(t4, ctx, w, slot, l, used, t2) else t4 == t2
    ensures At(t4, ctx, w, slot) == RestoredRow(pool, src, ctx, w, used, zero, l + 1, slot)
  {
    if w == 0 {
      assert At(t4, ctx, w, slot) == [] == Zeros(0);
      assert RestoredRow(pool, src, ctx, w, used, zero, l + 1, slot) == [];
    }
  }

  lemma UnusedBytes(ctx: nat, used: nat, w: nat)
    requires used <= ctx
    ensures (ctx - used) * w > 0 <==> used < ctx && w > 0
  {
    if used < ctx && w > 0 {
      MulMono(1, ctx - used, w);
    }
  }

  /** The two zeroed tails of layer l start right after the restored blocks and end with their halves. */
  lemma TailBounds(c: Config, l: nat, n: nat)
    requires l < c.nLayers && n <= c.maxContext
    ensures var w, ctx := c.HalfBytes(), c.maxContext;
            var total := c.nLayers * (2 * ctx) * w;
            && Row(ctx, l, false, 0) * w + n * w == Row(ctx, l, false, n) * w
            && Row(ctx, l, true, 0) * w + n * w == Row(ctx, l, true, n) * w
            && Row(ctx, l, false, n) * w + (ctx - n) * w <= total
            && Row(ctx, l, true, n) * w + (ctx - n) * w <= total
  {
    var w, ctx := c.HalfBytes(), c.maxContext;
    HalfFits(c.nLayers, ctx, w, l, false, n, ctx - n);
    HalfFits(c.nLayers, ctx, w, l, true, n, ctx - n);
    RowShift(ctx, w, l, false, n);
    RowShift(ctx, w, l, true, n);
  }

  lemma RowShift(ctx: nat, w: nat, l: nat, v: bool, n: nat)
    ensures Row(ctx, l, v, 0) * w + n * w == Row(ctx, l, v, n) * w
  {
    assert Row(ctx, l, v, n) == Row(ctx, l, v, 0) + n;
  }

  /**
   The prefix cut of the hydrate path: the body saved for usedTokens becomes the body for `matched`
   tokens, layer by layer, with both strides taken from the two token counts.
   */
  method Compact(c: Config, staging: array<byte>, usedTokens: nat, matched: nat) returns (compact: array<byte>)
    requires matched <= usedTokens && staging.Length == c.PackedBytes(usedTokens)
    ensures fresh(compact) && IsPacked(c.nLayers, c.HalfBytes(), matched, compact[..], staging[..], usedTokens)
  {
    var eb := c.EntryBytes();
    var halfEb := eb / 2;
    var srcLayerStride := usedTokens * eb;
    var dstLayerStride := matched * eb;
    var matchedKeysBytes := matched * halfEb;
    ghost var w := c.HalfBytes();
    PackedSize(c, usedTokens);
    PackedSize(c, matched);
    EntryHalves(c);
    assert c.nLayers * dstLayerStride == c.nLayers * (2 * matched) * w by {
      assert matched * (2 * w) == (2 * matched) * w;
      assert c.nLayers * ((2 * matched) * w) == c.nLayers * (2 * matched) * w;
    }
    compact := new byte[c.nLayers * dstLayerStride](_ => 0);
    var l := 0;
    while l < c.nLayers
      invariant 0 <= l <= c.nLayers
      invariant SameRows(l, w, matched, compact[..], matched, staging[..], usedTokens)
    {
      var srcKeys := l * srcLayerStride;
      var srcVals := srcKeys + usedTokens * halfEb;
      var dstKeys := l * dstLayerStride;
      var dstVals := dstKeys + matchedKeysBytes;
      LayerBounds(c, usedTokens, l, matched);
      LayerBounds(c, matched, l, matched);
      ghost var t := compact[..];
      var _ := CopyHalves(compact, dstKeys, dstVals, staging, srcKeys, srcVals, matchedKeysBytes, 2,
                          c.nLayers, w, l, matched, matched, usedTokens);
      forall slot: Slot | InShape(l + 1, matched, slot)
        ensures At(compact[..], matched, w, slot) == At(staging[..], usedTokens, w, slot)
      {
        assert LayerRow(compact[..], matched, w, slot, l, matched, staging[..], usedTokens, t);
      }
      l := l + 1;
    }
  }

  /** The n-position blocks of layer l lie inside a slab laid out for ctx positions. */
  lemma LayerBounds(c: Config, ctx: nat, l: nat, n: nat)
    requires l < c.nLayers && n <= ctx
    ensures var eb, w := c.EntryBytes(), c.HalfBytes();
            var keys := l * (ctx * eb);
            var vals := keys + ctx * (eb / 2);
            var total := c.nLayers * (2 * ctx) * w;
            && eb / 2 == w
            && keys == Row(ctx, l, false, 0) * w && vals == Row(ctx, l, true, 0) * w
            && 0 <= keys && keys + n * w <= total && vals + n * w <= total
  {
    LayerStart(c, ctx, l);
    EntryHalves(c);
    HalfFits(c.nLayers, ctx, c.HalfBytes(), l, false, 0, n);
    HalfFits(c.nLayers, ctx, c.HalfBytes(), l, true, 0, n);
  }
}
