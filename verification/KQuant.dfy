/**
 The Q4_K and Q6_K block layouts: packed 6-bit scales, nibbles, and split 6-bit quants.

 Every unpacking has a packing that undoes it and is undone by it, so the layouts lose nothing; the
 row loops are proved to give element e of a block its own quant and its own scale.
 */
module KQuant {
  import opened Common

  type u8 = bv8

  const QK_K := 256

  function LowNibble(q: u8): u8 { q & 0xF }

  function HighNibble(q: u8): u8 { q >> 4 }

  /** The half a sub-block's parity selects. */
  function Half(q: u8, high: bool): u8 { if high then HighNibble(q) else LowNibble(q) }

  function JoinNibbles(low: u8, high: u8): u8 { low | (high << 4) }

  // ---- Sixteen 6-bit values in twelve bytes ----

  datatype ScaleMin = ScaleMin(d: u8, m: u8)

  function GetScaleMinK4(j: nat, q: seq<u8>): ScaleMin
    requires j < 8 && |q| == 12
  {
    if j < 4 then ScaleMin(q[j] & 63, q[j + 4] & 63)
    else ScaleMin((q[j + 4] & 0xF) | ((q[j - 4] >> 6) << 4),
                  (q[j + 4] >> 4) | ((q[j] >> 6) << 4))
  }

  predicate SixBit(s: ScaleMin) { s.d < 64 && s.m < 64 }

  function UnpackScales(q: seq<u8>): (s: seq<ScaleMin>)
    requires |q| == 12
    ensures |s| == 8
  {
    seq(8, j requires 0 <= j < 8 => GetScaleMinK4(j, q))
  }

  function PackByte(s: seq<ScaleMin>, i: nat): u8
    requires |s| == 8 && i < 12
  {
    if i < 4 then s[i].d | ((s[i + 4].d >> 4) << 6)
    else if i < 8 then s[i - 4].m | ((s[i].m >> 4) << 6)
    else (s[i - 4].d & 0xF) | ((s[i - 4].m & 0xF) << 4)
  }

  function PackScales(s: seq<ScaleMin>): (q: seq<u8>)
    requires |s| == 8
    ensures |q| == 12
  {
    seq(12, i requires 0 <= i < 12 => PackByte(s, i))
  }

  /** The 6-bit values in digits: bytes 0-7 hold the first four pairs and, above 64, the top digits of the others. */
  lemma ScaleDigits(j: nat, q: seq<u8>)
    requires j < 8 && |q| == 12
    ensures var s := GetScaleMinK4(j, q);
            if j < 4 then s == ScaleMin(q[j] % 64, q[j + 4] % 64)
            else s == ScaleMin(q[j + 4] % 16 + 16 * (q[j - 4] / 64), q[j + 4] / 16 + 16 * (q[j] / 64))
  {
    if j >= 4 {
      SixDigits(q[j + 4], q[j - 4]);
      SixDigits(q[j + 4], q[j]);
    }
  }

  lemma SixDigits(low: u8, high: u8)
    ensures (low & 0xF) | ((high >> 6) << 4) == low % 16 + 16 * (high / 64)
    ensures (low >> 4) | ((high >> 6) << 4) == low / 16 + 16 * (high / 64)
  {
  }

  lemma SplitJoin(a: u8, b: u8)
    requires a < 64 && b < 64
    ensures (a | ((b >> 4) << 6)) & 63 == a
    ensures ((a | ((b >> 4) << 6)) >> 6) << 4 == (b >> 4) << 4
    ensures (b & 0xF) | ((b >> 4) << 4) == b
  {
  }

  lemma NibbleJoin(a: u8, b: u8)
    requires a < 16 && b < 16
    ensures LowNibble(JoinNibbles(a, b)) == a && HighNibble(JoinNibbles(a, b)) == b
  {
  }

  lemma JoinSplit(q: u8, r: u8)
    ensures (q & 63) | (((((r & 0xF) | ((q >> 6) << 4)) >> 4)) << 6) == q
    ensures (((r & 0xF) | ((q >> 6) << 4))) & 0xF == r & 0xF
    ensures (((r >> 4) | ((q >> 6) << 4))) & 0xF == r >> 4
    ensures (q & 63) | (((((r >> 4) | ((q >> 6) << 4)) >> 4)) << 6) == q
    ensures (r & 0xF) | ((r >> 4) << 4) == r
    ensures (r & 0xF) | ((q >> 6) << 4) < 64 && (r >> 4) | ((q >> 6) << 4) < 64 && q & 63 < 64
  {
  }

  /** Unpacking after packing gives back any eight pairs of 6-bit values. */
  lemma UnpackPackScales(s: seq<ScaleMin>)
    requires |s| == 8 && forall j | 0 <= j < 8 :: SixBit(s[j])
    ensures UnpackScales(PackScales(s)) == s
  {
    forall j | 0 <= j < 8 ensures GetScaleMinK4(j, PackScales(s)) == s[j] {
      if j < 4 {
        SplitJoin(s[j].d, s[j + 4].d);
        SplitJoin(s[j].m, s[j + 4].m);
      } else {
        SplitJoin(s[j - 4].d, s[j].d);
        SplitJoin(s[j - 4].m, s[j].m);
        NibbleJoin(s[j].d & 0xF, s[j].m & 0xF);
      }
    }
  }

  /** Packing after unpacking gives back any twelve bytes: no bit is ignored. */
  lemma PackUnpackScales(q: seq<u8>)
    requires |q| == 12
    ensures forall j | 0 <= j < 8 :: SixBit(UnpackScales(q)[j])
    ensures PackScales(UnpackScales(q)) == q
  {
    var s := UnpackScales(q);
    forall j | 0 <= j < 8 ensures SixBit(s[j]) {
      if j < 4 {
        JoinSplit(q[j], q[j]);
        JoinSplit(q[j + 4], q[j + 4]);
      } else {
        JoinSplit(q[j - 4], q[j + 4]);
        JoinSplit(q[j], q[j + 4]);
      }
    }
    forall i | 0 <= i < 12 ensures PackScales(s)[i] == q[i] {
      if i < 4 {
        JoinSplit(q[i], q[i + 8]);
      } else if i < 8 {
        JoinSplit(q[i], q[i + 4]);
      } else {
        JoinSplit(q[i - 8], q[i]);
        JoinSplit(q[i - 4], q[i]);
      }
    }
  }

  // ---- Q4_K: 256 nibbles in 128 bytes ----

  /** A Q4_K super-block; the two FP16 scales are taken as exact numbers. */
  datatype BlockQ4K = BlockQ4K(dall: real, dmin: real, scales: seq<u8>, qs: seq<u8>) {
    predicate Valid() { |scales| == 12 && |qs| == 128 }
  }

  /** The byte holding element e, and the half of it: sub-block e / 32 is all low or all high halves. */
  function Q4Byte(e: nat): nat { 32 * (e / 32 / 2) + e % 32 }

  function Q4High(e: nat): bool { e / 32 % 2 == 1 }

  /** The element held by one half of byte i. */
  function Q4Elem(i: nat, high: bool): nat { 64 * (i / 32) + i % 32 + (if high then 32 else 0) }

  /** Each nibble of the 128 bytes is one element of the 256, and each element one nibble. */
  lemma Q4Bijection(e: nat, i: nat, high: bool)
    ensures e < QK_K ==> Q4Byte(e) < 128 && Q4Elem(Q4Byte(e), Q4High(e)) == e
    ensures i < 128 ==> Q4Elem(i, high) < QK_K && Q4Byte(Q4Elem(i, high)) == i && Q4High(Q4Elem(i, high)) == high
  {
    DivModUnique(Q4Byte(e), 32, e / 32 / 2, e % 32);
    var r := i % 32 + (if high then 32 else 0);
    DivModUnique(Q4Elem(i, high), 32, 2 * (i / 32) + (if high then 1 else 0), i % 32);
  }

  function Q4Quant(qs: seq<u8>, e: nat): u8
    requires |qs| == 128 && e < QK_K
  {
    Q4Bijection(e, 0, false);
    Half(qs[Q4Byte(e)], Q4High(e))
  }

  /** Elements 0-31 of each 64 are the low digits of the 32 bytes, in order, and elements 32-63 the high digits. */
  lemma Q4Digits(qs: seq<u8>, e: nat)
    requires |qs| == 128 && e < QK_K
    ensures var b := qs[32 * (e / 64) + e % 32];
            Q4Quant(qs, e) == if e % 64 < 32 then b % 16 else b / 16
  {
    hide LowNibble, HighNibble;
    Q4Place(e);
    hide Q4Byte, Q4High;
    HalfDigits(qs[32 * (e / 64) + e % 32]);
  }

  lemma Q4Place(e: nat)
    ensures Q4Byte(e) == 32 * (e / 64) + e % 32 && (Q4High(e) <==> e % 64 >= 32)
  {
  }

  lemma HalfDigits(q: u8)
    ensures LowNibble(q) == q % 16 && HighNibble(q) == q / 16
  {
  }

  function Q4Quants(qs: seq<u8>): (n: seq<u8>)
    requires |qs| == 128
    ensures |n| == QK_K
  {
    seq(QK_K, e requires 0 <= e < QK_K => Q4Quant(qs, e))
  }

  function PackQ4Byte(n: seq<u8>, i: nat): u8
    requires |n| == QK_K && i < 128
  {
    Q4Bijection(0, i, false);
    Q4Bijection(0, i, true);
    JoinNibbles(n[Q4Elem(i, false)], n[Q4Elem(i, true)])
  }

  function PackQ4(n: seq<u8>): (qs: seq<u8>)
    requires |n| == QK_K
    ensures |qs| == 128
  {
    seq(128, i requires 0 <= i < 128 => PackQ4Byte(n, i))
  }

  lemma Nibbles(q: u8)
    ensures JoinNibbles(LowNibble(q), HighNibble(q)) == q && LowNibble(q) < 16 && HighNibble(q) < 16
  {
  }

  lemma Q4RoundTrip(n: seq<u8>)
    requires |n| == QK_K && forall e | 0 <= e < QK_K :: n[e] < 16
    ensures Q4Quants(PackQ4(n)) == n
  {
    forall e | 0 <= e < QK_K ensures Q4Quant(PackQ4(n), e) == n[e] {
      Q4Bijection(e, Q4Byte(e), false);
      Q4Bijection(e, Q4Byte(e), true);
      NibbleJoin(n[Q4Elem(Q4Byte(e), false)], n[Q4Elem(Q4Byte(e), true)]);
    }
  }

  lemma Q4Lossless(qs: seq<u8>)
    requires |qs| == 128
    ensures forall e | 0 <= e < QK_K :: Q4Quants(qs)[e] < 16
    ensures PackQ4(Q4Quants(qs)) == qs
  {
    forall e | 0 <= e < QK_K ensures Q4Quant(qs, e) < 16 {
      Q4Bijection(e, 0, false);
      Nibbles(qs[Q4Byte(e)]);
    }
    forall i | 0 <= i < 128 ensures PackQ4Byte(Q4Quants(qs), i) == qs[i] {
      Q4Bijection(0, i, false);
      Q4Bijection(0, i, true);
      Nibbles(qs[i]);
    }
  }

  function ToReal(b: u8): real { (b as int) as real }

  /** One dequantized value: the nibble times the scale of its 32, less the minimum of its 32. */
  function Q4Scaled(blk: BlockQ4K, s: ScaleMin, quant: u8): real {
    blk.dall * ToReal(s.d) * ToReal(quant) - blk.dmin * ToReal(s.m)
  }

  /** Element e of a block, as the tile kernel and the host reference compute it. */
  function Q4Value(blk: BlockQ4K, e: nat): real
    requires blk.Valid() && e < QK_K
  {
    Q4Scaled(blk, GetScaleMinK4(e / 32, blk.scales), Q4Quant(blk.qs, e))
  }

  /** A block packed from 6-bit scales and nibbles dequantizes to their products. */
  lemma Q4PackedValue(dall: real, dmin: real, s: seq<ScaleMin>, n: seq<u8>, e: nat)
    requires |s| == 8 && forall j | 0 <= j < 8 :: SixBit(s[j])
    requires |n| == QK_K && forall i | 0 <= i < QK_K :: n[i] < 16
    requires e < QK_K
    ensures Q4Value(BlockQ4K(dall, dmin, PackScales(s), PackQ4(n)), e)
         == dall * ToReal(s[e / 32].d) * ToReal(n[e]) - dmin * ToReal(s[e / 32].m)
  {
    hide PackScales, PackQ4, GetScaleMinK4, Q4Quant, Q4Quants, UnpackScales, SixBit, ToReal;
    var blk, j := BlockQ4K(dall, dmin, PackScales(s), PackQ4(n)), e / 32;
    UnpackPackScales(s);
    Q4RoundTrip(n);
    ScalesAt(blk.scales, j);
    QuantsAt(blk.qs, e);
  }

  /** The number a byte stands for. */
  lemma ToRealIs(b: u8)
    ensures ToReal(b) == (b as int) as real && 0.0 <= ToReal(b) < 256.0
  {
  }

  lemma ScalesAt(q: seq<u8>, j: nat)
    requires |q| == 12 && j < 8
    ensures UnpackScales(q)[j] == GetScaleMinK4(j, q)
  {
    hide GetScaleMinK4;
  }

  lemma QuantsAt(qs: seq<u8>, e: nat)
    requires |qs| == 128 && e < QK_K
    ensures Q4Quants(qs)[e] == Q4Quant(qs, e)
  {
    hide Q4Quant;
  }

  /** Positions of the four nested row loops and the output they write. */
  function Q4Index(b: nat, il: nat, l: nat, high: bool): nat {
    b * 256 + 64 * il + l + (if high then 32 else 0)
  }

  /** Every output of a row is written at exactly one loop position. */
  lemma Q4WritesOnce(blocks: nat, e: nat)
    requires e < blocks * 256
    ensures var b, il, l, high := e / 256, e % 256 / 64, e % 32, e / 32 % 2 == 1;
            b < blocks && il < 4 && l < 32 && Q4Index(b, il, l, high) == e
    ensures forall b: nat, il: nat, l: nat, high: bool | il < 4 && l < 32 && Q4Index(b, il, l, high) == e ::
              b == e / 256 && il == e % 256 / 64 && l == e % 32 && high == (e / 32 % 2 == 1)
  {
    Q4IndexHits(e);
    hide Q4Index;
    forall b: nat, il: nat, l: nat, high: bool | il < 4 && l < 32 && Q4Index(b, il, l, high) == e
      ensures b == e / 256 && il == e % 256 / 64 && l == e % 32 && high == (e / 32 % 2 == 1)
    {
      Q4IndexOnce(b, il, l, high);
    }
  }

  lemma Q4IndexHits(e: nat)
    ensures e % 256 / 64 < 4 && Q4Index(e / 256, e % 256 / 64, e % 32, e / 32 % 2 == 1) == e
  {
    var b, r := e / 256, e % 256;
    var il, s := r / 64, r % 64;
    Q4IndexOnce(b, il, s % 32, s / 32 == 1);
  }

  lemma Q4IndexOnce(b: nat, il: nat, l: nat, high: bool)
    requires il < 4 && l < 32
    ensures var e := Q4Index(b, il, l, high);
            b == e / 256 && il == e % 256 / 64 && l == e % 32 && high == (e / 32 % 2 == 1)
  {
    MixedDigits(b, il, if high then 1 else 0, l);
  }

  lemma MixedDigits(b: nat, il: nat, h: nat, l: nat)
    requires il < 4 && h < 2 && l < 32
    ensures var e := b * 256 + 64 * il + 32 * h + l;
            e / 256 == b && e % 256 / 64 == il && e % 32 == l && e / 32 % 2 == h
  {
    var e := b * 256 + 64 * il + 32 * h + l;
    DivModUnique(e, 256, b, 64 * il + 32 * h + l);
    DivModUnique(64 * il + 32 * h + l, 64, il, 32 * h + l);
    DivModUnique(e, 32, 8 * b + 2 * il + h, l);
    DivModUnique(8 * b + 2 * il + h, 2, 4 * b + il, h);
  }

  /** One embedding row: hidden_dim / 256 blocks starting at token * blocks_per_row. */
  method DequantQ4KRow(out: array<real>, data: seq<BlockQ4K>, tokenId: nat, hiddenDim: nat)
    requires (tokenId + 1) * (hiddenDim / 256) <= |data| && out.Length >= hiddenDim
    requires forall i | 0 <= i < |data| :: data[i].Valid()
    modifies out
    ensures forall e | 0 <= e < hiddenDim / 256 * 256 ::
              out[e] == Q4Value(data[tokenId * (hiddenDim / 256) + e / 256], e % 256)
    ensures forall e | hiddenDim / 256 * 256 <= e < out.Length :: out[e] == old(out[e])
  {
    hide Q4Value;
    var blocksPerRow := hiddenDim / 256;
    assert tokenId * blocksPerRow + blocksPerRow == (tokenId + 1) * blocksPerRow;
    var row := data[tokenId * blocksPerRow..tokenId * blocksPerRow + blocksPerRow];
    for b := 0 to blocksPerRow
      invariant forall e | 0 <= e < b * 256 :: out[e] == Q4Value(row[e / 256], e % 256)
      invariant forall e | b * 256 <= e < out.Length :: out[e] == old(out[e])
    {
      DequantQ4KBlock(out, row[b], b * 256);
    }
  }

  /** Element col of sub-block sb: byte 32 (sb / 2) + col, the half sb's parity selects, scale sb. */
  lemma Q4At(blk: BlockQ4K, sb: nat, col: nat)
    requires blk.Valid() && sb < 8 && col < 32
    ensures Q4Value(blk, sb * 32 + col)
         == Q4Scaled(blk, GetScaleMinK4(sb, blk.scales), Half(blk.qs[32 * (sb / 2) + col], sb % 2 == 1))
  {
    hide GetScaleMinK4, Q4Scaled, Half;
    DivModUnique(sb * 32 + col, 32, sb, col);
  }

  /** The inner loops over one block. */
  method DequantQ4KBlock(out: array<real>, blk: BlockQ4K, base: nat)
    requires blk.Valid() && base + 256 <= out.Length
    modifies out
    ensures forall e | base <= e < base + 256 :: out[e] == Q4Value(blk, e - base)
    ensures forall e | 0 <= e < base :: out[e] == old(out[e])
    ensures forall e | base + 256 <= e < out.Length :: out[e] == old(out[e])
  {
    hide Q4Value, ToReal;
    for il := 0 to 4
      invariant forall e | base <= e < base + 64 * il :: out[e] == Q4Value(blk, e - base)
      invariant forall e | 0 <= e < base :: out[e] == old(out[e])
      invariant forall e | base + 64 * il <= e < out.Length :: out[e] == old(out[e])
    {
      var s1 := GetScaleMinK4(2 * il, blk.scales);
      var s2 := GetScaleMinK4(2 * il + 1, blk.scales);
      var d1, dm1 := blk.dall * ToReal(s1.d), blk.dmin * ToReal(s1.m);
      var d2, dm2 := blk.dall * ToReal(s2.d), blk.dmin * ToReal(s2.m);
      DequantQ4KPair(out, blk, il, base, d1, dm1, d2, dm2);
    }
  }

  lemma ScaledParts(blk: BlockQ4K, s: ScaleMin, quant: u8, d: real, dm: real)
    requires d == blk.dall * ToReal(s.d) && dm == blk.dmin * ToReal(s.m)
    ensures d * ToReal(quant) - dm == Q4Scaled(blk, s, quant)
  {
    hide ToReal;
  }

  /** Two sub-blocks of 32: the low halves and the high halves of the same 32 bytes. */
  method DequantQ4KPair(out: array<real>, blk: BlockQ4K, il: nat, base: nat, d1: real, dm1: real, d2: real, dm2: real)
    requires blk.Valid() && il < 4 && base + 256 <= out.Length
    requires var s := GetScaleMinK4(2 * il, blk.scales); d1 == blk.dall * ToReal(s.d) && dm1 == blk.dmin * ToReal(s.m)
    requires var s := GetScaleMinK4(2 * il + 1, blk.scales); d2 == blk.dall * ToReal(s.d) && dm2 == blk.dmin * ToReal(s.m)
    modifies out
    ensures forall e | base + 64 * il <= e < base + 64 * il + 64 :: out[e] == Q4Value(blk, e - base)
    ensures forall e | 0 <= e < base + 64 * il :: out[e] == old(out[e])
    ensures forall e | base + 64 * il + 64 <= e < out.Length :: out[e] == old(out[e])
  {
    hide Q4Value, ToReal, GetScaleMinK4;
    var outBase := base + 64 * il;
    for l := 0 to 32
      invariant forall e | outBase <= e < outBase + l :: out[e] == Q4Value(blk, e - base)
      invariant forall e | outBase + 32 <= e < outBase + 32 + l :: out[e] == Q4Value(blk, e - base)
      invariant forall e | 0 <= e < outBase :: out[e] == old(out[e])
      invariant forall e | outBase + 64 <= e < out.Length :: out[e] == old(out[e])
    {
      var v1, v2 := Q4PairValues(blk, il, l, d1, dm1, d2, dm2);
      out[outBase + l] := v1;
      out[outBase + l + 32] := v2;
    }
  }

  /** The two values one byte holds: element l of the pair and the one 32 further. */
  method Q4PairValues(blk: BlockQ4K, il: nat, l: nat, d1: real, dm1: real, d2: real, dm2: real) returns (v1: real, v2: real)
    requires blk.Valid() && il < 4 && l < 32
    requires var s := GetScaleMinK4(2 * il, blk.scales); d1 == blk.dall * ToReal(s.d) && dm1 == blk.dmin * ToReal(s.m)
    requires var s := GetScaleMinK4(2 * il + 1, blk.scales); d2 == blk.dall * ToReal(s.d) && dm2 == blk.dmin * ToReal(s.m)
    ensures v1 == Q4Value(blk, 64 * il + l) && v2 == Q4Value(blk, 64 * il + 32 + l)
  {
    hide Q4Value, Q4Scaled, ToReal, GetScaleMinK4, LowNibble, HighNibble;
    var q := blk.qs[32 * il + l];
    Q4At(blk, 2 * il, l);
    Q4At(blk, 2 * il + 1, l);
    ScaledParts(blk, GetScaleMinK4(2 * il, blk.scales), Half(q, false), d1, dm1);
    ScaledParts(blk, GetScaleMinK4(2 * il + 1, blk.scales), Half(q, true), d2, dm2);
    v1 := d1 * ToReal(LowNibble(q)) - dm1;
    v2 := d2 * ToReal(HighNibble(q)) - dm2;
  }

  // ---- Q6_K: 256 six-bit quants split over two arrays ----

  datatype BlockQ6K = BlockQ6K(ql: seq<u8>, qh: seq<u8>, scales: seq<int>, d: real) {
    predicate Valid() { |ql| == 128 && |qh| == 64 && |scales| == 16 }
  }

  function QhField(q: u8, t: nat): u8
    requires t < 4
  {
    match t
    case 0 => (q >> 0) & 3
    case 1 => (q >> 2) & 3
    case 2 => (q >> 4) & 3
    case 3 => (q >> 6) & 3
  }

  /** Element e: quarter t of half h, lane l. Its low bits, its high bits and its scale. */
  function Q6Half(e: nat): nat { e / 128 }
  function Q6Quarter(e: nat): nat { e % 128 / 32 }
  function Q6Lane(e: nat): nat { e % 32 }
  function Q6Elem(h: nat, t: nat, l: nat): nat { 128 * h + 32 * t + l }

  lemma Q6InRange(e: nat)
    requires e < QK_K
    ensures Q6Half(e) < 2 && Q6Quarter(e) < 4 && Q6Lane(e) < 32 && e / 16 < 16
    ensures Q6Elem(Q6Half(e), Q6Quarter(e), Q6Lane(e)) == e
  {
  }

  lemma Q6Coordinates(h: nat, t: nat, l: nat)
    requires h < 2 && t < 4 && l < 32
    ensures Q6Elem(h, t, l) < QK_K && Q6Half(Q6Elem(h, t, l)) == h
    ensures Q6Quarter(Q6Elem(h, t, l)) == t && Q6Lane(Q6Elem(h, t, l)) == l
    ensures Q6Elem(h, t, l) / 16 == 8 * h + 2 * t + l / 16
  {
    var e' := Q6Elem(h, t, l);
    DivModUnique(e', 128, h, 32 * t + l);
    DivModUnique(32 * t + l, 32, t, l);
    DivModUnique(e', 32, 4 * h + t, l);
    DivModUnique(e', 16, 8 * h + 2 * t + l / 16, l % 16);
  }

  function JoinSix(low: u8, high: u8): u8 { low | (high << 4) }

  function Q6Quant(ql: seq<u8>, qh: seq<u8>, h: nat, t: nat, l: nat): u8
    requires |ql| == 128 && |qh| == 64 && h < 2 && t < 4 && l < 32
  {
    var b := ql[64 * h + 32 * (t % 2) + l];
    JoinSix(if t < 2 then LowNibble(b) else HighNibble(b), QhField(qh[32 * h + l], t))
  }

  /** A digit of `ql` below and a two-bit field of `qh` above; the quarter selects both. */
  lemma Q6Digits(ql: seq<u8>, qh: seq<u8>, h: nat, t: nat, l: nat)
    requires |ql| == 128 && |qh| == 64 && h < 2 && t < 4 && l < 32
    ensures var b, f := ql[64 * h + 32 * (t % 2) + l], qh[32 * h + l];
            var low: u8 := if t < 2 then b % 16 else b / 16;
            var high: u8 := match t case 0 => f % 4 case 1 => f / 4 % 4 case 2 => f / 16 % 4 case 3 => f / 64;
            Q6Quant(ql, qh, h, t, l) == low + 16 * high
  {
    hide JoinSix, QhField, LowNibble, HighNibble;
    var b := ql[64 * h + 32 * (t % 2) + l];
    HalfDigits(b);
    FieldDigits(qh[32 * h + l]);
    Nibbles(b);
    JoinedFields(qh[32 * h + l]);
    JoinDigits(if t < 2 then LowNibble(b) else HighNibble(b), QhField(qh[32 * h + l], t));
  }

  lemma FieldDigits(f: u8)
    ensures QhField(f, 0) == f % 4 && QhField(f, 1) == f / 4 % 4 && QhField(f, 2) == f / 16 % 4 && QhField(f, 3) == f / 64
  {
  }

  lemma JoinDigits(low: u8, high: u8)
    requires low < 16 && high < 4
    ensures JoinSix(low, high) == low + 16 * high
  {
  }

  function Q6Scaled(d: real, scale: int, quant: u8): real {
    d * (scale as real) * (((quant as int) - 32) as real)
  }

  /** Value of element e: signed quant times the scale of its sixteen. */
  function Q6Value(blk: BlockQ6K, e: nat): real
    requires blk.Valid() && e < QK_K
  {
    Q6InRange(e);
    Q6Scaled(blk.d, blk.scales[e / 16], Q6Quant(blk.ql, blk.qh, Q6Half(e), Q6Quarter(e), Q6Lane(e)))
  }

  function LowSix(q: u8): u8 { q & 0xF }

  function HighSix(q: u8): u8 { (q >> 4) & 3 }

  function JoinFields(a: u8, b: u8, c: u8, d: u8): u8 { a | (b << 2) | (c << 4) | (d << 6) }

  /** All 256 quants as one table, indexed by half, quarter and lane. */
  type Quants6 = (nat, nat, nat) -> u8

  function PackQl(n: Quants6, i: nat): u8 {
    JoinNibbles(LowSix(n(i / 64, i % 64 / 32, i % 32)), LowSix(n(i / 64, i % 64 / 32 + 2, i % 32)))
  }

  function PackQh(n: Quants6, i: nat): u8 {
    JoinFields(HighSix(n(i / 32, 0, i % 32)), HighSix(n(i / 32, 1, i % 32)),
               HighSix(n(i / 32, 2, i % 32)), HighSix(n(i / 32, 3, i % 32)))
  }

  lemma SixBits(q: u8)
    requires q < 64
    ensures JoinSix(LowSix(q), HighSix(q)) == q && LowSix(q) < 16 && HighSix(q) < 4
  {
  }

  lemma SixParts(low: u8, high: u8)
    requires low < 16 && high < 4
    ensures LowSix(JoinSix(low, high)) == low && HighSix(JoinSix(low, high)) == high && JoinSix(low, high) < 64
  {
  }

  lemma Fields(a: u8, b: u8, c: u8, d: u8)
    requires a < 4 && b < 4 && c < 4 && d < 4
    ensures var q := JoinFields(a, b, c, d);
            QhField(q, 0) == a && QhField(q, 1) == b && QhField(q, 2) == c && QhField(q, 3) == d
  {
  }

  lemma JoinedFields(q: u8)
    ensures JoinFields(QhField(q, 0), QhField(q, 1), QhField(q, 2), QhField(q, 3)) == q
    ensures QhField(q, 0) < 4 && QhField(q, 1) < 4 && QhField(q, 2) < 4 && QhField(q, 3) < 4
  {
  }

  /** Any 256 six-bit quants survive packing: every nibble and every 2-bit field has its own element. */
  lemma Q6RoundTrip(n: Quants6, ql: seq<u8>, qh: seq<u8>, h: nat, t: nat, l: nat)
    requires forall h: nat, t: nat, l: nat :: n(h, t, l) < 64
    requires |ql| == 128 && forall i | 0 <= i < 128 :: ql[i] == PackQl(n, i)
    requires |qh| == 64 && forall i | 0 <= i < 64 :: qh[i] == PackQh(n, i)
    requires h < 2 && t < 4 && l < 32
    ensures Q6Quant(ql, qh, h, t, l) == n(h, t, l)
  {
    hide LowNibble, HighNibble, QhField, JoinSix, LowSix, HighSix, PackQl, PackQh;
    var p := t % 2;
    assert t == p || t == p + 2;
    LowPacked(n, h, p, l);
    HighPacked(n, h, l);
    SixBits(n(h, t, l));
  }

  lemma LowPacked(n: Quants6, h: nat, p: nat, l: nat)
    requires forall h: nat, t: nat, l: nat :: n(h, t, l) < 64
    requires h < 2 && p < 2 && l < 32
    ensures var b := PackQl(n, 64 * h + 32 * p + l);
            LowNibble(b) == LowSix(n(h, p, l)) && HighNibble(b) == LowSix(n(h, p + 2, l))
  {
    hide LowNibble, HighNibble, JoinNibbles, LowSix, HighSix, JoinSix;
    var i := 64 * h + 32 * p + l;
    DivModUnique(i, 64, h, 32 * p + l);
    DivModUnique(32 * p + l, 32, p, l);
    DivModUnique(i, 32, 2 * h + p, l);
    SixBits(n(h, p, l));
    SixBits(n(h, p + 2, l));
    NibbleJoin(LowSix(n(h, p, l)), LowSix(n(h, p + 2, l)));
  }

  lemma HighPacked(n: Quants6, h: nat, l: nat)
    requires forall h: nat, t: nat, l: nat :: n(h, t, l) < 64
    requires h < 2 && l < 32
    ensures forall t: nat | t < 4 :: QhField(PackQh(n, 32 * h + l), t) == HighSix(n(h, t, l))
  {
    hide JoinFields, QhField, LowSix, HighSix, JoinSix;
    DivModUnique(32 * h + l, 32, h, l);
    SixBits(n(h, 0, l));
    SixBits(n(h, 1, l));
    SixBits(n(h, 2, l));
    SixBits(n(h, 3, l));
    Fields(HighSix(n(h, 0, l)), HighSix(n(h, 1, l)), HighSix(n(h, 2, l)), HighSix(n(h, 3, l)));
  }

  lemma LowParts(ql: seq<u8>, qh: seq<u8>, h: nat, p: nat, l: nat)
    requires |ql| == 128 && |qh| == 64 && h < 2 && p < 2 && l < 32
    ensures var b := ql[64 * h + 32 * p + l];
            b == JoinNibbles(LowSix(Q6Quant(ql, qh, h, p, l)), LowSix(Q6Quant(ql, qh, h, p + 2, l)))
  {
    hide JoinSix, LowSix, HighSix, JoinNibbles, LowNibble, HighNibble, QhField;
    var b, f := ql[64 * h + 32 * p + l], qh[32 * h + l];
    JoinedFields(f);
    Nibbles(b);
    SixParts(LowNibble(b), QhField(f, p));
    SixParts(HighNibble(b), QhField(f, p + 2));
  }

  /** Repacking the quants of a block gives its bytes back: no bit is ignored. */
  lemma Q6Lossless(ql: seq<u8>, qh: seq<u8>, n: Quants6)
    requires |ql| == 128 && |qh| == 64
    requires forall h: nat, t: nat, l: nat | h < 2 && t < 4 && l < 32 :: n(h, t, l) == Q6Quant(ql, qh, h, t, l)
    ensures forall i | 0 <= i < 128 :: PackQl(n, i) == ql[i]
    ensures forall i | 0 <= i < 64 :: PackQh(n, i) == qh[i]
  {
    forall i | 0 <= i < 128 ensures PackQl(n, i) == ql[i] {
      var h, p, l := i / 64, i % 64 / 32, i % 32;
      assert i == 64 * h + 32 * p + l;
      LowParts(ql, qh, h, p, l);
    }
    forall i | 0 <= i < 64 ensures PackQh(n, i) == qh[i] {
      var h, l := i / 32, i % 32;
      assert i == 32 * h + l;
      JoinedFields(qh[i]);
      HighParts(ql, qh, h, l);
    }
  }

  lemma HighParts(ql: seq<u8>, qh: seq<u8>, h: nat, l: nat)
    requires |ql| == 128 && |qh| == 64 && h < 2 && l < 32
    ensures forall t: nat | t < 4 :: HighSix(Q6Quant(ql, qh, h, t, l)) == QhField(qh[32 * h + l], t)
  {
    forall t: nat | t < 4 ensures HighSix(Q6Quant(ql, qh, h, t, l)) == QhField(qh[32 * h + l], t) {
      var b := ql[64 * h + 32 * (t % 2) + l];
      Nibbles(b);
      JoinedFields(qh[32 * h + l]);
      SixParts(if t < 2 then LowNibble(b) else HighNibble(b), QhField(qh[32 * h + l], t));
    }
  }

  method DequantQ6KRow(out: array<real>, data: seq<BlockQ6K>, tokenId: nat, hiddenDim: nat)
    requires (tokenId + 1) * (hiddenDim / 256) <= |data| && out.Length >= hiddenDim
    requires forall i | 0 <= i < |data| :: data[i].Valid()
    modifies out
    ensures forall e | 0 <= e < hiddenDim / 256 * 256 ::
              out[e] == Q6Value(data[tokenId * (hiddenDim / 256) + e / 256], e % 256)
    ensures forall e | hiddenDim / 256 * 256 <= e < out.Length :: out[e] == old(out[e])
  {
    hide Q6Value;
    var blocksPerRow := hiddenDim / 256;
    assert tokenId * blocksPerRow + blocksPerRow == (tokenId + 1) * blocksPerRow;
    var row := data[tokenId * blocksPerRow..tokenId * blocksPerRow + blocksPerRow];
    for b := 0 to blocksPerRow
      invariant forall e | 0 <= e < b * 256 :: out[e] == Q6Value(row[e / 256], e % 256)
      invariant forall e | b * 256 <= e < out.Length :: out[e] == old(out[e])
    {
      DequantQ6KBlock(out, row[b], b * 256);
    }
  }

  /** The n loop over one block: two halves. */
  method DequantQ6KBlock(out: array<real>, blk: BlockQ6K, base: nat)
    requires blk.Valid() && base + 256 <= out.Length
    modifies out
    ensures forall e | base <= e < base + 256 :: out[e] == Q6Value(blk, e - base)
    ensures forall e | 0 <= e < base :: out[e] == old(out[e])
    ensures forall e | base + 256 <= e < out.Length :: out[e] == old(out[e])
  {
    hide Q6Value;
    DequantQ6KHalf(out, blk, base, 0);
    DequantQ6KHalf(out, blk, base, 1);
  }

  /** One pass of the n loop: 128 elements from 64 bytes of ql, 32 of qh and 8 scales. */
  method DequantQ6KHalf(out: array<real>, blk: BlockQ6K, base: nat, h: nat)
    requires blk.Valid() && h < 2 && base + 256 <= out.Length
    modifies out
    ensures forall e | base + 128 * h <= e < base + 128 * h + 128 :: out[e] == Q6Value(blk, e - base)
    ensures forall e | 0 <= e < base + 128 * h :: out[e] == old(out[e])
    ensures forall e | base + 128 * h + 128 <= e < out.Length :: out[e] == old(out[e])
  {
    hide Q6Value;
    var y := base + 128 * h;
    for l := 0 to 32
      invariant forall e | y <= e < y + l :: out[e] == Q6Value(blk, e - base)
      invariant forall e | y + 32 <= e < y + 32 + l :: out[e] == Q6Value(blk, e - base)
      invariant forall e | y + 64 <= e < y + 64 + l :: out[e] == Q6Value(blk, e - base)
      invariant forall e | y + 96 <= e < y + 96 + l :: out[e] == Q6Value(blk, e - base)
      invariant forall e | 0 <= e < y :: out[e] == old(out[e])
      invariant forall e | y + 128 <= e < out.Length :: out[e] == old(out[e])
    {
      DequantQ6KLane(out, blk, base, h, l);
    }
  }

  /** One step of the inner loop: four quants from three bytes. */
  method DequantQ6KLane(out: array<real>, blk: BlockQ6K, base: nat, h: nat, l: nat)
    requires blk.Valid() && h < 2 && l < 32 && base + 256 <= out.Length
    modifies out
    ensures var y := base + 128 * h + l;
            && out[y] == Q6Value(blk, y - base) && out[y + 32] == Q6Value(blk, y + 32 - base)
            && out[y + 64] == Q6Value(blk, y + 64 - base) && out[y + 96] == Q6Value(blk, y + 96 - base)
            && forall e | 0 <= e < out.Length && e != y && e != y + 32 && e != y + 64 && e != y + 96 :: out[e] == old(out[e])
  {
    hide Q6Value, Q6Scaled, JoinSix, LowNibble, HighNibble, QhField;
    var y := base + 128 * h;
    var ql, qh, sc := blk.ql[64 * h..64 * h + 64], blk.qh[32 * h..32 * h + 32], blk.scales[8 * h..8 * h + 8];
    var is_ := l / 16;
    var q1 := JoinSix(LowNibble(ql[l]), QhField(qh[l], 0));
    var q2 := JoinSix(LowNibble(ql[l + 32]), QhField(qh[l], 1));
    var q3 := JoinSix(HighNibble(ql[l]), QhField(qh[l], 2));
    var q4 := JoinSix(HighNibble(ql[l + 32]), QhField(qh[l], 3));
    Q6Step(blk, h, l);
    out[y + l] := Q6Scaled(blk.d, sc[is_ + 0], q1);
    out[y + l + 32] := Q6Scaled(blk.d, sc[is_ + 2], q2);
    out[y + l + 64] := Q6Scaled(blk.d, sc[is_ + 4], q3);
    out[y + l + 96] := Q6Scaled(blk.d, sc[is_ + 6], q4);
  }

  /** The four values written by one step are those of elements l, l + 32, l + 64 and l + 96 of the half. */
  lemma Q6Step(blk: BlockQ6K, h: nat, l: nat)
    requires blk.Valid() && h < 2 && l < 32
    ensures var b, b', f, s := blk.ql[64 * h + l], blk.ql[64 * h + 32 + l], blk.qh[32 * h + l], 8 * h + l / 16;
            var e := 128 * h + l;
            && Q6Value(blk, e) == Q6Scaled(blk.d, blk.scales[s], JoinSix(LowNibble(b), QhField(f, 0)))
            && Q6Value(blk, e + 32) == Q6Scaled(blk.d, blk.scales[s + 2], JoinSix(LowNibble(b'), QhField(f, 1)))
            && Q6Value(blk, e + 64) == Q6Scaled(blk.d, blk.scales[s + 4], JoinSix(HighNibble(b), QhField(f, 2)))
            && Q6Value(blk, e + 96) == Q6Scaled(blk.d, blk.scales[s + 6], JoinSix(HighNibble(b'), QhField(f, 3)))
  {
    hide Q6Scaled, JoinSix, LowNibble, HighNibble, QhField, Q6Value;
    Q6At(blk, h, 0, l);
    Q6At(blk, h, 1, l);
    Q6At(blk, h, 2, l);
    Q6At(blk, h, 3, l);
  }

  lemma Q6At(blk: BlockQ6K, h: nat, t: nat, l: nat)
    requires blk.Valid() && h < 2 && t < 4 && l < 32
    ensures Q6Value(blk, Q6Elem(h, t, l))
         == Q6Scaled(blk.d, blk.scales[8 * h + 2 * t + l / 16], Q6Quant(blk.ql, blk.qh, h, t, l))
  {
    hide Q6Scaled, Q6Quant;
    Q6Coordinates(h, t, l);
    hide Q6Half, Q6Quarter, Q6Lane, Q6Elem;
  }

  /** Quants are stored 32 too high: the signed quant s, packed as s + 32, dequantizes to d * scale * s. */
  lemma Q6PackedValue(blk: BlockQ6K, n: Quants6, h: nat, t: nat, l: nat, s: int)
    requires blk.Valid() && h < 2 && t < 4 && l < 32
    requires forall h: nat, t: nat, l: nat :: n(h, t, l) < 64
    requires forall i | 0 <= i < 128 :: blk.ql[i] == PackQl(n, i)
    requires forall i | 0 <= i < 64 :: blk.qh[i] == PackQh(n, i)
    requires n(h, t, l) as int == s + 32
    ensures 128 * h + 32 * t + l < QK_K && 8 * h + 2 * t + l / 16 < 16
    ensures Q6Value(blk, 128 * h + 32 * t + l) == blk.d * (blk.scales[8 * h + 2 * t + l / 16] as real) * (s as real)
  {
    hide PackQl, PackQh, Q6Quant, Q6Value, Q6Scaled, Q6Elem;
    Q6ElemIs(h, t, l);
    Q6RoundTrip(n, blk.ql, blk.qh, h, t, l);
    Q6At(blk, h, t, l);
    Q6Shifted(blk.d, blk.scales[8 * h + 2 * t + l / 16], n(h, t, l), s);
  }

  lemma Q6ElemIs(h: nat, t: nat, l: nat)
    requires h < 2 && t < 4 && l < 32
    ensures Q6Elem(h, t, l) == 128 * h + 32 * t + l < QK_K && 8 * h + 2 * t + l / 16 < 16
  {
  }

  lemma Q6Shifted(d: real, scale: int, quant: u8, s: int)
    requires quant as int == s + 32
    ensures Q6Scaled(d, scale, quant) == d * (scale as real) * (s as real)
  {
  }
}
