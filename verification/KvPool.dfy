/**
 The KV cache pool: one flat byte array per tier, addressed by layer, position and K-or-V half.

 Every region of the pool, of the packed on-disk body and of the INT8 scale table has one shape:
 layer after layer, all keys of a layer before all its values, one fixed-width row per position.
 `Row` numbers those rows; the addresses the code computes are shown to be `Row * width`, and
 everything about disjointness, packing and restoring is then said about rows.
 */
module KvPool {
  import opened Common

  datatype Slot = Slot(layer: nat, isValue: bool, pos: nat)

  /** Where a pointer points: into the fast (device) pool or into the overflow (host) pool. */
  datatype Ptr = Gpu(off: int) | Cpu(off: int)

  datatype Config = Config(nLayers: nat, nKvHeads: nat, headDim: nat,
                           maxContext: nat, overflowContext: nat, kvTypeBytes: nat)
  {
    function EntryBytes(): nat { 2 * nKvHeads * headDim * kvTypeBytes }

    function HalfBytes(): nat { nKvHeads * headDim * kvTypeBytes }

    function FastBytes(): nat { nLayers * EntryBytes() * maxContext }

    function OverflowBytes(): nat { nLayers * EntryBytes() * overflowContext }

    function MaxTokens(): nat { maxContext + overflowContext }

    function PackedBytes(usedTokens: int): nat {
      if usedTokens <= 0 then 0 else nLayers * usedTokens * EntryBytes()
    }

    predicate Positive() {
      nLayers > 0 && nKvHeads > 0 && headDim > 0 && maxContext > 0 && kvTypeBytes > 0
    }
  }

  // ---- Addresses as the code computes them ----

  function KeyPtr(c: Config, layer: int, pos: int): Ptr {
    var eb := c.EntryBytes() / 2;
    if pos < c.maxContext then
      var layerStride := c.maxContext * c.EntryBytes();
      Gpu(layer * layerStride + pos * eb)
    else
      var overflowPos := pos - c.maxContext;
      var layerStride := c.overflowContext * c.EntryBytes();
      Cpu(layer * layerStride + overflowPos * eb)
  }

  function ValPtr(c: Config, layer: int, pos: int): Ptr {
    var eb := c.EntryBytes() / 2;
    if pos < c.maxContext then
      var layerStride := c.maxContext * c.EntryBytes();
      var keyOffset := c.maxContext * eb;
      Gpu(layer * layerStride + keyOffset + pos * eb)
    else
      var overflowPos := pos - c.maxContext;
      var layerStride := c.overflowContext * c.EntryBytes();
      var keyOffset := c.overflowContext * eb;
      Cpu(layer * layerStride + keyOffset + overflowPos * eb)
  }

  function SlotPtr(c: Config, s: Slot): Ptr {
    if s.isValue then ValPtr(c, s.layer, s.pos) else KeyPtr(c, s.layer, s.pos)
  }

  function ScalesBytes(c: Config): nat {
    if c.kvTypeBytes != 1 then 0 else 2 * c.nLayers * c.maxContext * c.nKvHeads * 4
  }

  /** Offset in floats into the scale table, or None where the code returns a null pointer. */
  function ScalePtr(c: Config, hasScales: bool, layer: int, pos: int, isValue: bool): Option<int> {
    if !hasScales then None
    else if c.kvTypeBytes != 1 then None
    else if layer < 0 || layer >= c.nLayers then None
    else if pos < 0 || pos >= c.maxContext then None
    else
      var perKvRegion := c.maxContext * c.nKvHeads;
      var perLayer := 2 * perKvRegion;
      Some(layer * perLayer + (if isValue then perKvRegion else 0) + pos * c.nKvHeads)
  }

  // ---- Row numbering ----

  function Row(ctx: nat, layer: nat, isValue: bool, pos: nat): nat {
    layer * (2 * ctx) + (if isValue then ctx else 0) + pos
  }

  function RowSlot(ctx: nat, row: nat): (s: Slot)
    requires ctx > 0
  {
    var rest := row % (2 * ctx);
    Slot(row / (2 * ctx), rest >= ctx, if rest >= ctx then rest - ctx else rest)
  }

  predicate InShape(layers: nat, ctx: nat, s: Slot) {
    s.layer < layers && s.pos < ctx
  }

  /** Rows and slots are in bijection: `RowSlot` undoes `Row` on every slot of the shape. */
  lemma RowSlotOfRow(layers: nat, ctx: nat, s: Slot)
    requires InShape(layers, ctx, s)
    ensures RowSlot(ctx, Row(ctx, s.layer, s.isValue, s.pos)) == s
    ensures Row(ctx, s.layer, s.isValue, s.pos) < layers * (2 * ctx)
  {
    var rest := (if s.isValue then ctx else 0) + s.pos;
    DivModUnique(Row(ctx, s.layer, s.isValue, s.pos), 2 * ctx, s.layer, rest);
    MulMono(s.layer + 1, layers, 2 * ctx);
  }

  /** ... and `Row` undoes `RowSlot` on every row below the total. */
  lemma RowOfRowSlot(layers: nat, ctx: nat, row: nat)
    requires ctx > 0 && row < layers * (2 * ctx)
    ensures var s := RowSlot(ctx, row);
            InShape(layers, ctx, s) && Row(ctx, s.layer, s.isValue, s.pos) == row
  {
    var q := row / (2 * ctx);
    assert row == q * (2 * ctx) + row % (2 * ctx);
    if q >= layers {
      MulMono(layers, q, 2 * ctx);
    }
  }

  ghost predicate HasOwner(layers: nat, ctx: nat, width: nat, offset: Slot -> int, addr: int) {
    exists s: Slot :: InShape(layers, ctx, s) && offset(s) <= addr < offset(s) + width
  }

  /** The ranges [offset(s), offset(s) + width) are disjoint and fill layers * 2 * ctx * width bytes. */
  ghost predicate Tiles(layers: nat, ctx: nat, width: nat, offset: Slot -> int) {
    && (forall s: Slot | InShape(layers, ctx, s) ::
          0 <= offset(s) && offset(s) + width <= layers * (2 * ctx) * width)
    && (forall addr: nat | addr < layers * (2 * ctx) * width ::
          HasOwner(layers, ctx, width, offset, addr))
    && (forall s, t: Slot | InShape(layers, ctx, s) && InShape(layers, ctx, t) && s != t ::
          offset(s) + width <= offset(t) || offset(t) + width <= offset(s))
  }

  ghost predicate RowMap(layers: nat, ctx: nat, width: nat, offset: Slot -> int) {
    forall s: Slot | InShape(layers, ctx, s) ::
      offset(s) == Row(ctx, s.layer, s.isValue, s.pos) * width
  }

  lemma RowsTile(layers: nat, ctx: nat, width: nat, offset: Slot -> int)
    requires ctx > 0 && width > 0 && RowMap(layers, ctx, width, offset)
    ensures Tiles(layers, ctx, width, offset)
  {
    forall s: Slot | InShape(layers, ctx, s)
      ensures 0 <= offset(s) && offset(s) + width <= layers * (2 * ctx) * width
    {
      RowFits(layers, ctx, width, s);
    }
    forall addr: nat | addr < layers * (2 * ctx) * width
      ensures HasOwner(layers, ctx, width, offset, addr)
    {
      RowOwner(layers, ctx, width, offset, addr);
    }
    forall s, t: Slot | InShape(layers, ctx, s) && InShape(layers, ctx, t) && s != t
      ensures offset(s) + width <= offset(t) || offset(t) + width <= offset(s)
    {
      RowSlotOfRow(layers, ctx, s);
      RowSlotOfRow(layers, ctx, t);
      RowsApart(Row(ctx, s.layer, s.isValue, s.pos), Row(ctx, t.layer, t.isValue, t.pos), width);
    }
  }

  lemma RowFits(layers: nat, ctx: nat, width: nat, s: Slot)
    requires InShape(layers, ctx, s)
    ensures var r := Row(ctx, s.layer, s.isValue, s.pos);
            0 <= r * width && r * width + width <= layers * (2 * ctx) * width
  {
    var r, total := Row(ctx, s.layer, s.isValue, s.pos), layers * (2 * ctx);
    RowSlotOfRow(layers, ctx, s);
    MulMono(r + 1, total, width);
    assert (r + 1) * width == r * width + width;
  }

  lemma RowOwner(layers: nat, ctx: nat, width: nat, offset: Slot -> int, addr: nat)
    requires ctx > 0 && width > 0 && RowMap(layers, ctx, width, offset)
    requires addr < layers * (2 * ctx) * width
    ensures HasOwner(layers, ctx, width, offset, addr)
  {
    var r := RowIndex(layers * (2 * ctx), width, addr);
    RowOfRowSlot(layers, ctx, r);
    var s := RowSlot(ctx, r);
    assert InShape(layers, ctx, s) && offset(s) == r * width;
  }

  lemma RowIndex(total: nat, width: nat, addr: nat) returns (r: nat)
    requires width > 0 && addr < total * width
    ensures r < total && r * width <= addr < r * width + width
  {
    r := addr / width;
    assert addr == r * width + addr % width;
    if r >= total {
      MulMono(total, r, width);
    }
  }

  lemma RowsApart(a: nat, b: nat, width: nat)
    requires a != b
    ensures a * width + width <= b * width || b * width + width <= a * width
  {
    if a < b {
      MulMono(a + 1, b, width);
    } else {
      MulMono(b + 1, a, width);
    }
    assert (a + 1) * width == a * width + width && (b + 1) * width == b * width + width;
  }

  // ---- The pool's addresses are rows ----

  lemma SlabAddress(layer: nat, ctx: nat, half: nat, isValue: bool, pos: nat)
    ensures layer * (ctx * (2 * half)) + (if isValue then ctx * half else 0) + pos * half
         == Row(ctx, layer, isValue, pos) * half
  {
    calc {
      Row(ctx, layer, isValue, pos) * half;
      (layer * (2 * ctx)) * half + (if isValue then ctx else 0) * half + pos * half;
      { assert (layer * (2 * ctx)) * half == layer * (ctx * (2 * half)) by { Rearrange(layer, ctx, half); } }
      layer * (ctx * (2 * half)) + (if isValue then ctx * half else 0) + pos * half;
    }
  }

  lemma Rearrange(a: nat, b: nat, c: nat)
    ensures (a * (2 * b)) * c == a * (b * (2 * c))
  {
    assert (a * (2 * b)) * c == a * ((2 * b) * c);
    assert (2 * b) * c == b * (2 * c);
  }

  lemma EntryHalves(c: Config)
    ensures c.EntryBytes() == 2 * c.HalfBytes() && c.EntryBytes() / 2 == c.HalfBytes()
  {
    assert 2 * c.nKvHeads * c.headDim * c.kvTypeBytes == 2 * (c.nKvHeads * c.headDim * c.kvTypeBytes) by {
      assert 2 * c.nKvHeads * c.headDim == 2 * (c.nKvHeads * c.headDim);
    }
  }

  lemma FastPtrIsRow(c: Config, s: Slot)
    requires s.pos < c.maxContext
    ensures SlotPtr(c, s) == Gpu(Row(c.maxContext, s.layer, s.isValue, s.pos) * c.HalfBytes())
  {
    EntryHalves(c);
    SlabAddress(s.layer, c.maxContext, c.HalfBytes(), s.isValue, s.pos);
  }

  lemma OverflowPtrIsRow(c: Config, s: Slot)
    requires s.pos >= c.maxContext
    ensures SlotPtr(c, s)
         == Cpu(Row(c.overflowContext, s.layer, s.isValue, s.pos - c.maxContext) * c.HalfBytes())
  {
    EntryHalves(c);
    SlabAddress(s.layer, c.overflowContext, c.HalfBytes(), s.isValue, s.pos - c.maxContext);
  }

  lemma RegionBytes(layers: nat, ctx: nat, half: nat)
    ensures layers * (2 * half) * ctx == layers * (2 * ctx) * half
  {
    assert layers * (2 * half) * ctx == layers * ((2 * half) * ctx);
    assert layers * (2 * ctx) * half == layers * ((2 * ctx) * half);
    assert (2 * half) * ctx == (2 * ctx) * half;
  }

  /** The K and V ranges of the fast pool are pairwise disjoint and cover exactly its allocation. */
  lemma FastPoolIsPartition(c: Config)
    requires c.Positive()
    ensures forall s: Slot | s.pos < c.maxContext :: SlotPtr(c, s).Gpu?
    ensures Tiles(c.nLayers, c.maxContext, c.EntryBytes() / 2, (s: Slot) => SlotPtr(c, s).off)
    ensures c.FastBytes() == c.nLayers * (2 * c.maxContext) * (c.EntryBytes() / 2)
  {
    EntryHalves(c);
    assert c.HalfBytes() > 0 by { HalfPositive(c); }
    forall s: Slot | s.pos < c.maxContext
      ensures SlotPtr(c, s) == Gpu(Row(c.maxContext, s.layer, s.isValue, s.pos) * c.HalfBytes())
    {
      FastPtrIsRow(c, s);
    }
    RegionBytes(c.nLayers, c.maxContext, c.HalfBytes());
    RowsTile(c.nLayers, c.maxContext, c.HalfBytes(), (s: Slot) => SlotPtr(c, s).off);
  }

  /** The overflow pool is cut the same way, position maxContext being its first row. */
  lemma OverflowPoolIsPartition(c: Config)
    requires c.Positive() && c.overflowContext > 0
    ensures forall s: Slot | s.pos >= c.maxContext :: SlotPtr(c, s).Cpu?
    ensures Tiles(c.nLayers, c.overflowContext, c.EntryBytes() / 2,
                  (s: Slot) => SlotPtr(c, Slot(s.layer, s.isValue, s.pos + c.maxContext)).off)
    ensures c.OverflowBytes() == c.nLayers * (2 * c.overflowContext) * (c.EntryBytes() / 2)
  {
    EntryHalves(c);
    assert c.HalfBytes() > 0 by { HalfPositive(c); }
    forall s: Slot | s.pos >= c.maxContext
      ensures SlotPtr(c, s)
           == Cpu(Row(c.overflowContext, s.layer, s.isValue, s.pos - c.maxContext) * c.HalfBytes())
    {
      OverflowPtrIsRow(c, s);
    }
    RegionBytes(c.nLayers, c.overflowContext, c.HalfBytes());
    RowsTile(c.nLayers, c.overflowContext, c.HalfBytes(),
             (s: Slot) => SlotPtr(c, Slot(s.layer, s.isValue, s.pos + c.maxContext)).off);
  }

  /** The INT8 scale table: one row of nKvHeads floats per (layer, K-or-V, position), no gaps. */
  lemma ScaleTableIsPartition(c: Config)
    requires c.Positive() && c.kvTypeBytes == 1
    ensures forall s: Slot | InShape(c.nLayers, c.maxContext, s) ::
              ScalePtr(c, true, s.layer, s.pos, s.isValue).Some?
    ensures Tiles(c.nLayers, c.maxContext, c.nKvHeads, (s: Slot) => ScaleOffset(c, s))
    ensures ScalesBytes(c) == 4 * (c.nLayers * (2 * c.maxContext) * c.nKvHeads)
  {
    forall s: Slot | InShape(c.nLayers, c.maxContext, s)
      ensures ScaleOffset(c, s) == Row(c.maxContext, s.layer, s.isValue, s.pos) * c.nKvHeads
    {
      SlabAddress(s.layer, c.maxContext, c.nKvHeads, s.isValue, s.pos);
      assert 2 * (c.maxContext * c.nKvHeads) == c.maxContext * (2 * c.nKvHeads);
    }
    RowsTile(c.nLayers, c.maxContext, c.nKvHeads, (s: Slot) => ScaleOffset(c, s));
    assert 2 * c.nLayers * c.maxContext == c.nLayers * (2 * c.maxContext);
  }

  function ScaleOffset(c: Config, s: Slot): int {
    match ScalePtr(c, true, s.layer, s.pos, s.isValue)
    case Some(off) => off
    case None => -1
  }

  lemma HalfPositive(c: Config)
    requires c.Positive()
    ensures c.HalfBytes() > 0
  {
    MulMono(1, c.nKvHeads, c.headDim);
    MulMono(1, c.nKvHeads * c.headDim, c.kvTypeBytes);
  }
}
