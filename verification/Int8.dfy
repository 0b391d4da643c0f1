/**
 INT8 quantization of one K or V row with its absolute maximum, in exact arithmetic.

 The maximum is reduced three ways: each thread over its strided columns, each warp by an xor
 shuffle, and the block by atomic maxima that may land in any order.
 */
module Int8 {
  import opened Common

  function Abs(v: real): real { if v < 0.0 then -v else v }

  function FMax(a: real, b: real): real { if a >= b then a else b }

  // ---- The true maximum ----

  function AbsMax(v: seq<real>): real {
    if v == [] then 0.0 else FMax(AbsMax(v[..|v| - 1]), Abs(v[|v| - 1]))
  }

  /** m is the greatest magnitude among the columns in s, or zero when there are none. */
  ghost predicate MaxOver(v: seq<real>, s: set<nat>, m: real) {
    && m >= 0.0
    && (forall c | c in s :: c < |v| && Abs(v[c]) <= m)
    && (m == 0.0 || exists c | c in s :: c < |v| && Abs(v[c]) == m)
  }

  function Columns(n: nat): (s: set<nat>)
    ensures forall c: nat :: c in s <==> c < n
  {
    if n == 0 then {} else Columns(n - 1) + {n - 1}
  }

  lemma {:induction false} AbsMaxIsMax(v: seq<real>)
    ensures MaxOver(v, Columns(|v|), AbsMax(v))
  {
    if v != [] {
      var w := v[..|v| - 1];
      AbsMaxIsMax(w);
      assert AbsMax(w) == 0.0 || exists c | c in Columns(|w|) :: Abs(v[c]) == AbsMax(w);
      assert |v| - 1 in Columns(|v|);
    }
  }

  lemma MaxIsUnique(v: seq<real>, s: set<nat>, m: real, m': real)
    requires MaxOver(v, s, m) && MaxOver(v, s, m')
    ensures m == m'
  {
  }

  lemma MaxOfUnion(v: seq<real>, s: set<nat>, t: set<nat>, m: real, m': real)
    requires MaxOver(v, s, m) && MaxOver(v, t, m')
    ensures MaxOver(v, s + t, FMax(m, m'))
  {
    var w := FMax(m, m');
    if w != 0.0 {
      var c :| (c in s || c in t) && c < |v| && Abs(v[c]) == w;
      assert c in s + t;
    }
  }

  // ---- Reduction ----

  /** Columns seen by the lanes of a warp that agree with `lane` modulo off. */
  function Seen(cols: nat, stride: nat, warp: nat, off: nat, lane: nat): set<nat>
    requires stride > 0 && off > 0
  {
    set c: nat | c < cols && c % stride / 32 == warp && c % stride % off == lane % off
  }

  /** Columns seen by a set of whole warps. */
  function SeenBy(cols: nat, stride: nat, warps: set<nat>): set<nat>
    requires stride > 0
  {
    set c: nat | c < cols && c % stride / 32 in warps
  }

  /** Pass 1 for one thread: columns tid, tid + stride, tid + 2 stride, ... */
  method LocalMax(v: seq<real>, tid: nat, stride: nat) returns (m: real)
    requires tid < stride
    ensures MaxOver(v, Seen(|v|, stride, tid / 32, 32, tid % 32), m)
  {
    hide MaxOver;
    m := 0.0;
    var c := tid;
    ghost var s: set<nat>, k := {}, 0;
    NoColumns(v);
    while c < |v|
      invariant c == k * stride + tid && k >= 0
      invariant forall c': nat :: c' in s <==> c' < |v| && c' < c && c' % stride == tid
      invariant MaxOver(v, s, m)
      decreases |v| - c
    {
      OneColumn(v, c);
      MaxOfUnion(v, s, {c}, m, Abs(v[c]));
      NextInStride(c, stride, tid, k);
      s := s + {c};
      m := FMax(m, Abs(v[c]));
      k := k + 1;
      c := c + stride;
    }
    WholeStride(|v|, stride, tid, s);
  }

  lemma NoColumns(v: seq<real>)
    ensures MaxOver(v, {}, 0.0)
  {
  }

  lemma OneColumn(v: seq<real>, c: nat)
    requires c < |v|
    ensures MaxOver(v, {c}, Abs(v[c]))
  {
  }

  lemma WholeStride(cols: nat, stride: nat, tid: nat, s: set<nat>)
    requires tid < stride && forall c: nat :: c in s <==> c < cols && c % stride == tid
    ensures s == Seen(cols, stride, tid / 32, 32, tid % 32)
  {
    forall c: nat | c < cols ensures c in s <==> c in Seen(cols, stride, tid / 32, 32, tid % 32) {
      var t := c % stride;
      assert t % 32 % 32 == t % 32;
      DivModUnique(t, 32, t / 32, t % 32);
      DivModUnique(tid, 32, tid / 32, tid % 32);
    }
  }

  lemma NextInStride(c: nat, stride: nat, tid: nat, k: nat)
    requires tid < stride && c == k * stride + tid
    ensures c % stride == tid && c + stride == (k + 1) * stride + tid
    ensures forall c': nat | c < c' < c + stride :: c' % stride != tid
  {
    DivModUnique(c, stride, k, tid);
    forall c': nat | c < c' < c + stride ensures c' % stride != tid {
      if c' % stride == tid {
        var k' := c' / stride;
        assert c' == k' * stride + tid;
        assert c' - c == (k' - k) * stride;
        if k' > k {
          MulMono(1, k' - k, stride);
        } else {
          MulMono(k', k, stride);
        }
      }
    }
  }

  /** The lane whose number differs in the one bit off: off is a power of two. */
  function XorLane(lane: nat, off: nat): (l: nat)
    requires lane < 32 && (off == 16 || off == 8 || off == 4 || off == 2 || off == 1)
    ensures l < 32
  {
    if lane / off % 2 == 0 then lane + off else lane - off
  }

  /** Sets of lanes double at every shuffle: modulo 2 off becomes modulo off. */
  lemma SeenDoubles(cols: nat, stride: nat, warp: nat, off: nat, lane: nat)
    requires stride > 0 && lane < 32 && (off == 16 || off == 8 || off == 4 || off == 2 || off == 1)
    ensures Seen(cols, stride, warp, off, lane)
         == Seen(cols, stride, warp, 2 * off, lane) + Seen(cols, stride, warp, 2 * off, XorLane(lane, off))
  {
    forall c: nat | c < cols
      ensures c % stride % off == lane % off
         <==> c % stride % (2 * off) == lane % (2 * off) || c % stride % (2 * off) == XorLane(lane, off) % (2 * off)
    {
      ClassSplits(c % stride, off, lane);
    }
  }

  lemma ClassSplits(x: nat, off: nat, lane: nat)
    requires lane < 32 && (off == 16 || off == 8 || off == 4 || off == 2 || off == 1)
    ensures x % off == lane % off <==> x % (2 * off) == lane % (2 * off) || x % (2 * off) == XorLane(lane, off) % (2 * off)
  {
    HalfClass(x, off);
    HalfClass(lane, off);
    OtherHalf(lane, off);
  }

  /** The remainder modulo 2 off is the remainder modulo off, with or without one more off. */
  lemma HalfClass(x: nat, off: nat)
    requires off > 0
    ensures 0 <= x % off < off
    ensures x % (2 * off) == if x / off % 2 == 0 then x % off else x % off + off
  {
    var q, r := x / (2 * off), x % (2 * off);
    var b := if r < off then 0 else 1;
    DivModUnique(r, off, b, r - b * off);
    DivModUnique(x, off, 2 * q + b, r - b * off);
    DivModUnique(2 * q + b, 2, q, b);
  }

  lemma OtherHalf(lane: nat, off: nat)
    requires lane < 32 && (off == 16 || off == 8 || off == 4 || off == 2 || off == 1)
    ensures XorLane(lane, off) % (2 * off) == if lane / off % 2 == 0 then lane % off + off else lane % off
  {
    HalfClass(lane, off);
    var q := lane / (2 * off);
    if lane / off % 2 == 0 {
      DivModUnique(lane + off, 2 * off, q, lane % off + off);
    } else {
      DivModUnique(lane - off, 2 * off, q, lane % off);
    }
  }

  /** The butterfly: five shuffles leave every lane with the maximum of its warp. */
  method WarpMax(v: seq<real>, stride: nat, warp: nat, m: seq<real>) returns (m': seq<real>)
    requires stride > 0 && |m| == 32
    requires forall l: nat | l < 32 :: MaxOver(v, Seen(|v|, stride, warp, 32, l), m[l])
    ensures |m'| == 32 && forall l: nat | l < 32 :: MaxOver(v, Seen(|v|, stride, warp, 1, l), m'[l])
  {
    m' := m;
    var off := 16;
    while off > 0
      invariant off == 16 || off == 8 || off == 4 || off == 2 || off == 1 || off == 0
      invariant |m'| == 32
      invariant forall l: nat | l < 32 :: MaxOver(v, Seen(|v|, stride, warp, if off == 0 then 1 else 2 * off, l), m'[l])
    {
      m' := Shuffle(v, stride, warp, off, m');
      off := off / 2;
    }
  }

  method Shuffle(v: seq<real>, stride: nat, warp: nat, off: nat, m: seq<real>) returns (m': seq<real>)
    requires stride > 0 && |m| == 32 && (off == 16 || off == 8 || off == 4 || off == 2 || off == 1)
    requires forall l: nat | l < 32 :: MaxOver(v, Seen(|v|, stride, warp, 2 * off, l), m[l])
    ensures |m'| == 32 && forall l: nat | l < 32 :: MaxOver(v, Seen(|v|, stride, warp, off, l), m'[l])
  {
    hide MaxOver, Seen;
    m' := seq(32, l requires 0 <= l < 32 => FMax(m[l], m[XorLane(l, off)]));
    forall l: nat | l < 32 ensures MaxOver(v, Seen(|v|, stride, warp, off, l), m'[l]) {
      SeenDoubles(|v|, stride, warp, off, l);
      MaxOfUnion(v, Seen(|v|, stride, warp, 2 * off, l), Seen(|v|, stride, warp, 2 * off, XorLane(l, off)),
                 m[l], m[XorLane(l, off)]);
    }
  }

  /** Pass 1: whatever order the warps' atomic maxima take, the row's true maximum results. */
  method RowMax(v: seq<real>, stride: nat) returns (m: real)
    requires stride > 0 && stride % 32 == 0
    ensures m == AbsMax(v)
  {
    hide MaxOver;
    m := 0.0;
    ghost var landed: set<nat> := {};
    var pending := Columns(stride / 32);
    NothingSeen(v, stride);
    while pending != {}
      invariant forall w | w in pending :: w < stride / 32
      invariant forall w: nat | w < stride / 32 :: w in pending || w in landed
      invariant MaxOver(v, SeenBy(|v|, stride, landed), m)
      decreases pending
    {
      var w :| w in pending;
      var local := LocalMaxima(v, stride, w);
      var warpMax := WarpMax(v, stride, w, local);
      assert SeenBy(|v|, stride, landed + {w}) == SeenBy(|v|, stride, landed) + Seen(|v|, stride, w, 1, 0);
      MaxOfUnion(v, SeenBy(|v|, stride, landed), Seen(|v|, stride, w, 1, 0), m, warpMax[0]);
      m := FMax(m, warpMax[0]);
      pending, landed := pending - {w}, landed + {w};
    }
    AllSeen(v, stride, landed);
    AbsMaxIsMax(v);
    MaxIsUnique(v, Columns(|v|), m, AbsMax(v));
  }

  lemma NothingSeen(v: seq<real>, stride: nat)
    requires stride > 0
    ensures MaxOver(v, SeenBy(|v|, stride, {}), 0.0)
  {
  }

  lemma AllSeen(v: seq<real>, stride: nat, warps: set<nat>)
    requires stride > 0 && stride % 32 == 0 && forall w: nat | w < stride / 32 :: w in warps
    ensures SeenBy(|v|, stride, warps) == Columns(|v|)
  {
    forall c: nat | c < |v| ensures c % stride / 32 in warps {
      assert c % stride / 32 < stride / 32;
    }
  }

  method LocalMaxima(v: seq<real>, stride: nat, warp: nat) returns (m: seq<real>)
    requires stride > 0 && stride % 32 == 0 && warp < stride / 32
    ensures |m| == 32 && forall l: nat | l < 32 :: MaxOver(v, Seen(|v|, stride, warp, 32, l), m[l])
  {
    hide MaxOver, Seen;
    m := [];
    for l := 0 to 32
      invariant |m| == l
      invariant forall l': nat | l' < l :: MaxOver(v, Seen(|v|, stride, warp, 32, l'), m[l'])
    {
      var tid := 32 * warp + l;
      DivModUnique(tid, 32, warp, l);
      var x := LocalMax(v, tid, stride);
      m := m + [x];
    }
  }

  // ---- The atomic maximum works on bit patterns ----

  function Pow2(n: nat): (p: nat)
    ensures p > 0
  {
    if n == 0 then 1 else 2 * Pow2(n - 1)
  }

  const MANTISSA := 0x80_0000

  /** The value of a non-negative finite float, in units of 2^-149, from its bit pattern. */
  function FloatUnits(bits: nat): nat {
    var e, m := bits / MANTISSA, bits % MANTISSA;
    if e == 0 then m else (MANTISSA + m) * Pow2(e - 1)
  }

  lemma NextFloat(bits: nat)
    ensures FloatUnits(bits) < FloatUnits(bits + 1)
  {
    var e, m := bits / MANTISSA, bits % MANTISSA;
    if m + 1 < MANTISSA {
      DivModUnique(bits + 1, MANTISSA, e, m + 1);
      if e > 0 {
        MulMono(MANTISSA + m + 1, MANTISSA + m + 1, Pow2(e - 1));
        assert (MANTISSA + m + 1) * Pow2(e - 1) == (MANTISSA + m) * Pow2(e - 1) + Pow2(e - 1);
      }
    } else {
      DivModUnique(bits + 1, MANTISSA, e + 1, 0);
      if e > 0 {
        assert (2 * MANTISSA) * Pow2(e - 1) == (MANTISSA + m) * Pow2(e - 1) + Pow2(e - 1);
      }
    }
  }

  /** Comparing bit patterns as integers compares the floats. */
  lemma {:induction false} BitOrderIsValueOrder(a: nat, b: nat)
    ensures a < b <==> FloatUnits(a) < FloatUnits(b)
    decreases if a < b then b - a else a - b
  {
    if a < b {
      BitOrderIsValueOrder(a, b - 1);
      NextFloat(b - 1);
    } else if b < a {
      BitOrderIsValueOrder(a - 1, b);
      NextFloat(a - 1);
    }
  }

  /** So the integer atomic maximum leaves the bit pattern of the floating maximum. */
  lemma AtomicMaxOnBits(a: nat, b: nat)
    ensures FloatUnits(Max(a, b)) == Max(FloatUnits(a), FloatUnits(b))
  {
    BitOrderIsValueOrder(a, b);
    BitOrderIsValueOrder(b, a);
  }

  // ---- Quantization ----

  /** Round to nearest, ties to even. */
  function RoundNearest(x: real): int {
    var f := x.Floor;
    var frac := x - f as real;
    if frac < 0.5 then f
    else if frac > 0.5 then f + 1
    else if f % 2 == 0 then f else f + 1
  }

  /** It is the nearest integer, and of two equally near the even one. */
  lemma RoundsToNearest(x: real, n: int)
    ensures Abs(x - RoundNearest(x) as real) <= 0.5
    ensures n == RoundNearest(x) <==> Abs(x - n as real) < 0.5 || (Abs(x - n as real) == 0.5 && n % 2 == 0)
  {
  }

  function Scale(rowMax: real): real { rowMax / 127.0 }

  function InvScale(rowMax: real): real { if Scale(rowMax) > 0.0 then 127.0 / rowMax else 0.0 }

  function Scaled(val: real, rowMax: real): real { val * InvScale(rowMax) }

  function Quantize(val: real, rowMax: real): int {
    Max(-127, Min(127, RoundNearest(Scaled(val, rowMax))))
  }

  lemma RealMulMono(a: real, b: real, w: real)
    requires a <= b && w >= 0.0
    ensures a * w <= b * w
  {
    assert (b - a) * w >= 0.0;
  }

  lemma Reassociate(a: real, b: real, c: real)
    requires b * c == 1.0
    ensures a * b * c == a
  {
    assert a * b * c == a * (b * c);
  }

  lemma Inverse(rowMax: real)
    requires rowMax > 0.0
    ensures InvScale(rowMax) > 0.0 && rowMax * InvScale(rowMax) == 127.0 && -rowMax * InvScale(rowMax) == -127.0
    ensures InvScale(rowMax) * Scale(rowMax) == 1.0
  {
    var inv := InvScale(rowMax);
    assert inv * Scale(rowMax) == inv * rowMax / 127.0;
  }

  lemma ScaledInRange(val: real, rowMax: real)
    requires Abs(val) <= rowMax
    ensures -127.0 <= Scaled(val, rowMax) <= 127.0
    ensures val == Scaled(val, rowMax) * Scale(rowMax)
    ensures Scale(rowMax) >= 0.0
  {
    if rowMax > 0.0 {
      Inverse(rowMax);
      ScaledBounds(val, rowMax, InvScale(rowMax));
      Reassociate(val, InvScale(rowMax), Scale(rowMax));
    }
  }

  lemma ScaledBounds(val: real, rowMax: real, inv: real)
    requires -rowMax <= val <= rowMax && inv >= 0.0
    requires rowMax * inv == 127.0 && -rowMax * inv == -127.0
    ensures -127.0 <= val * inv <= 127.0
  {
    RealMulMono(val, rowMax, inv);
    RealMulMono(-rowMax, val, inv);
  }

  /** Distance of a value from what its code stands for. */
  function CodeError(val: real, q: int, rowMax: real): real { Abs(val - q as real * Scale(rowMax)) }

  /** The clamp never changes a value, and an element is at most half a step away from its code. */
  lemma QuantizationError(val: real, rowMax: real)
    requires Abs(val) <= rowMax
    ensures Quantize(val, rowMax) == RoundNearest(Scaled(val, rowMax))
    ensures -127 <= Quantize(val, rowMax) <= 127
    ensures CodeError(val, Quantize(val, rowMax), rowMax) <= Scale(rowMax) / 2.0
  {
    hide Scaled, Scale, RoundNearest;
    ScaledInRange(val, rowMax);
    var x := Scaled(val, rowMax);
    RoundInRange(x);
    var q, scale := RoundNearest(x), Scale(rowMax);
    ErrorScales(x, q, scale);
    assert val - q as real * scale == x * scale - q as real * scale;
    assert Quantize(val, rowMax) == q;
  }

  lemma RoundInRange(x: real)
    requires -127.0 <= x <= 127.0
    ensures -127 <= RoundNearest(x) <= 127
  {
  }

  lemma ErrorScales(x: real, q: int, scale: real)
    requires q == RoundNearest(x) && scale >= 0.0
    ensures Abs(x * scale - q as real * scale) <= scale / 2.0
  {
    RoundsToNearest(x, q);
    var e := x - q as real;
    assert x * scale - q as real * scale == e * scale;
    RealMulMono(e, 0.5, scale);
    RealMulMono(-0.5, e, scale);
  }

  /** The codes keep the order of the values. */
  lemma QuantizeMonotone(a: real, b: real, rowMax: real)
    requires Abs(a) <= rowMax && Abs(b) <= rowMax && a <= b
    ensures Quantize(a, rowMax) <= Quantize(b, rowMax)
  {
    hide Quantize, RoundNearest, Scaled, CodeError;
    QuantizationError(a, rowMax);
    QuantizationError(b, rowMax);
    ScaledMonotone(a, b, rowMax);
    RoundMonotone(Scaled(a, rowMax), Scaled(b, rowMax));
  }

  lemma ScaledMonotone(a: real, b: real, rowMax: real)
    requires a <= b && rowMax >= 0.0
    ensures Scaled(a, rowMax) <= Scaled(b, rowMax)
  {
    if rowMax > 0.0 {
      Inverse(rowMax);
    }
    RealMulMono(a, b, InvScale(rowMax));
  }

  /** The largest magnitude gets the largest code, so the range is never wasted. */
  lemma LargestCode(rowMax: real)
    requires rowMax > 0.0
    ensures Quantize(rowMax, rowMax) == 127 && Quantize(-rowMax, rowMax) == -127
  {
    hide RoundNearest;
    Inverse(rowMax);
    RoundsToNearest(127.0, 127);
    RoundsToNearest(-127.0, -127);
  }

  lemma RoundMonotone(x: real, y: real)
    requires x <= y
    ensures RoundNearest(x) <= RoundNearest(y)
  {
    RoundsToNearest(x, RoundNearest(x));
    RoundsToNearest(y, RoundNearest(y));
  }

  // ---- The kernel ----

  /** What the kernel leaves of row v: its codes, each within half a step of its value. */
  ghost predicate QuantizedRow(q: seq<int>, v: seq<real>) {
    && |q| == |v|
    && forall c | 0 <= c < |v| ::
         q[c] == Quantize(v[c], AbsMax(v)) && CodeError(v[c], q[c], AbsMax(v)) <= Scale(AbsMax(v)) / 2.0
  }

  /** One block of the launch: row `row` of the matrix, `stride` threads. */
  method Fp16ToInt8Row(dst: array<int>, scaleOut: array?<real>, src: seq<real>, row: nat, cols: nat, offset: nat, stride: nat)
    requires stride > 0 && stride % 32 == 0
    requires offset + cols <= |src| && offset + cols <= dst.Length
    requires scaleOut != null ==> row < scaleOut.Length
    modifies dst, scaleOut
    ensures QuantizedRow(dst[offset..offset + cols], src[offset..offset + cols])
    ensures scaleOut != null ==> scaleOut[row] == Scale(AbsMax(src[offset..offset + cols]))
    ensures scaleOut != null ==> scaleOut[row] * 127.0 == AbsMax(src[offset..offset + cols])
    ensures scaleOut != null ==> forall r | 0 <= r < scaleOut.Length && r != row :: scaleOut[r] == old(scaleOut[r])
    ensures forall i | 0 <= i < offset || offset + cols <= i < dst.Length :: dst[i] == old(dst[i])
  {
    hide Quantize, AbsMax, Scale;
    var v := src[offset..offset + cols];
    var rowMax := RowMax(v, stride);
    var scale := Scale(rowMax);
    if scaleOut != null {
      scaleOut[row] := scale;
    }
    QuantizePass(dst, v, offset, stride, rowMax);
    var q := dst[offset..offset + cols];
    forall c | 0 <= c < cols ensures q[c] == Quantize(v[c], rowMax) {
      assert dst[offset + c] == Quantize(v[c], rowMax);
    }
    CodesAreClose(q, v);
    ScaleTimes127(rowMax);
  }

  lemma ScaleTimes127(rowMax: real)
    ensures Scale(rowMax) * 127.0 == rowMax
  {
  }

  lemma CodesAreClose(q: seq<int>, v: seq<real>)
    requires |q| == |v| && forall c | 0 <= c < |v| :: q[c] == Quantize(v[c], AbsMax(v))
    ensures QuantizedRow(q, v)
  {
    hide Quantize, AbsMax, Scale, Abs, CodeError;
    AbsMaxIsMax(v);
    forall c | 0 <= c < |v| ensures CodeError(v[c], q[c], AbsMax(v)) <= Scale(AbsMax(v)) / 2.0 {
      assert c in Columns(|v|);
      QuantizationError(v[c], AbsMax(v));
      assert q[c] == Quantize(v[c], AbsMax(v));
    }
  }

  /** Pass 2: every column is written once, by the thread its strided loop brings there. */
  method QuantizePass(dst: array<int>, v: seq<real>, offset: nat, stride: nat, rowMax: real)
    requires stride > 0 && offset + |v| <= dst.Length
    modifies dst
    ensures forall i | offset <= i < offset + |v| :: dst[i] == Quantize(v[i - offset], rowMax)
    ensures forall i | 0 <= i < offset || offset + |v| <= i < dst.Length :: dst[i] == old(dst[i])
  {
    hide Quantize;
    for tid := 0 to stride
      invariant forall c: nat | c < |v| && c % stride < tid :: dst[offset + c] == Quantize(v[c], rowMax)
      invariant forall i | 0 <= i < offset || offset + |v| <= i < dst.Length :: dst[i] == old(dst[i])
    {
      QuantizeThread(dst, v, offset, stride, tid, rowMax);
    }
    forall i | offset <= i < offset + |v| ensures dst[i] == Quantize(v[i - offset], rowMax) {
      assert (i - offset) % stride < stride;
      assert dst[offset + (i - offset)] == Quantize(v[i - offset], rowMax);
    }
  }

  /** One thread of pass 2. */
  method QuantizeThread(dst: array<int>, v: seq<real>, offset: nat, stride: nat, tid: nat, rowMax: real)
    requires tid < stride && offset + |v| <= dst.Length
    modifies dst
    ensures forall c: nat | c < |v| && c % stride == tid :: dst[offset + c] == Quantize(v[c], rowMax)
    ensures forall c: nat | c < |v| && c % stride != tid :: dst[offset + c] == old(dst[offset + c])
    ensures forall i | 0 <= i < offset || offset + |v| <= i < dst.Length :: dst[i] == old(dst[i])
  {
    hide Quantize;
    var c, k := tid, 0;
    while c < |v|
      invariant c == k * stride + tid && k >= 0
      invariant forall c': nat | c' < |v| && c' % stride == tid && c' < c :: dst[offset + c'] == Quantize(v[c'], rowMax)
      invariant forall c': nat | c' < |v| && c' % stride != tid :: dst[offset + c'] == old(dst[offset + c'])
      invariant forall i | 0 <= i < offset || offset + |v| <= i < dst.Length :: dst[i] == old(dst[i])
      decreases |v| - c
    {
      NextInStride(c, stride, tid, k);
      dst[offset + c] := Quantize(v[c], rowMax);
      k := k + 1;
      c := c + stride;
    }
  }

  // ---- The launch ----

  /** Where row r of a matrix starts. */
  function RowStart(r: nat, cols: nat): nat { r * cols }

  /** Row r of a matrix; empty beyond it. */
  function MatrixRow<T>(s: seq<T>, r: nat, cols: nat): seq<T> {
    if RowStart(r, cols) + cols <= |s| then s[RowStart(r, cols)..RowStart(r, cols) + cols] else []
  }

  /** Row r of the matrix has its codes. */
  ghost predicate RowDone(dst: seq<int>, src: seq<real>, r: nat, cols: nat) {
    RowStart(r, cols) + cols <= |dst| && QuantizedRow(MatrixRow(dst, r, cols), MatrixRow(src, r, cols))
  }

  lemma RowBounds(r: nat, rows: nat, cols: nat)
    requires r < rows
    ensures RowStart(r, cols) + cols == RowStart(r + 1, cols) <= RowStart(rows, cols)
  {
    MulMono(r + 1, rows, cols);
  }

  lemma RowsKept(before: seq<int>, after: seq<int>, src: seq<real>, n: nat, cols: nat)
    requires forall r: nat | r < n :: RowDone(before, src, r, cols)
    requires |after| == |before| && RowStart(n, cols) <= |before|
    requires forall i | 0 <= i < RowStart(n, cols) :: after[i] == before[i]
    ensures forall r: nat | r < n :: RowDone(after, src, r, cols)
  {
    hide RowStart, QuantizedRow;
    forall r: nat | r < n ensures RowDone(after, src, r, cols) {
      assert RowDone(before, src, r, cols);
      RowBounds(r, n, cols);
      var start := RowStart(r, cols);
      assert after[start..start + cols] == before[start..start + cols];
    }
  }

  method QuantizeMatrixRow(dst: array<int>, scaleOut: array?<real>, src: seq<real>, row: nat, cols: nat, stride: nat)
    requires stride > 0 && stride % 32 == 0
    requires RowStart(row, cols) + cols <= |src| && RowStart(row, cols) + cols <= dst.Length
    requires scaleOut != null ==> row < scaleOut.Length
    modifies dst, scaleOut
    ensures RowDone(dst[..], src, row, cols)
    ensures scaleOut != null ==> scaleOut[row] == Scale(AbsMax(MatrixRow(src, row, cols)))
    ensures scaleOut != null ==> forall r | 0 <= r < scaleOut.Length && r != row :: scaleOut[r] == old(scaleOut[r])
    ensures forall i | 0 <= i < RowStart(row, cols) || RowStart(row, cols) + cols <= i < dst.Length :: dst[i] == old(dst[i])
  {
    hide QuantizedRow, Scale, AbsMax, RowStart;
    var offset := RowStart(row, cols);
    Fp16ToInt8Row(dst, scaleOut, src, row, cols, offset, stride);
    assert dst[..][offset..offset + cols] == dst[offset..offset + cols];
  }

  /** One block per row: every row gets its codes and its scale. */
  method Fp16ToInt8(dst: array<int>, scaleOut: array?<real>, src: seq<real>, rows: nat, cols: nat, stride: nat)
    requires stride > 0 && stride % 32 == 0
    requires RowStart(rows, cols) <= |src| && RowStart(rows, cols) <= dst.Length
    requires scaleOut != null ==> rows <= scaleOut.Length
    modifies dst, scaleOut
    ensures forall r: nat | r < rows :: RowDone(dst[..], src, r, cols)
    ensures scaleOut != null ==> forall r: nat | r < rows :: scaleOut[r] == Scale(AbsMax(MatrixRow(src, r, cols)))
    ensures forall i | RowStart(rows, cols) <= i < dst.Length :: dst[i] == old(dst[i])
  {
    hide RowDone, MatrixRow, Scale, AbsMax, RowStart;
    for row := 0 to rows
      invariant forall r: nat | r < row :: RowDone(dst[..], src, r, cols)
      invariant scaleOut != null ==> forall r: nat | r < row :: scaleOut[r] == Scale(AbsMax(MatrixRow(src, r, cols)))
      invariant forall i | RowStart(rows, cols) <= i < dst.Length :: dst[i] == old(dst[i])
    {
      RowBounds(row, rows, cols);
      ghost var before := dst[..];
      QuantizeMatrixRow(dst, scaleOut, src, row, cols, stride);
      RowsKept(before, dst[..], src, row, cols);
    }
  }
}
