/**
 The scratch bump allocator and the admission test of layer-major prefill.

 `BatchedFits` is evaluated once, from unaligned sizes; the allocator aligns every request to 256
 bytes. The margin absorbs the difference: whenever the test passes, no request of the prefill fails.
 */
module Scratch {
  import opened Common

  const SIZEOF_HALF := 2
  const BATCHED_SCRATCH_MARGIN := 4 * 1024 * 1024

  datatype Shape = Shape(hidden: nat, q: nat, kv: nat, intermediate: nat)

  datatype Buffer = Buffer(off: int, size: nat) {
    function End(): int { off + size }
  }

  /** (size + 255) & ~255 */
  function AlignUp(size: nat): (a: nat)
    ensures size <= a < size + 256 && a % 256 == 0
  {
    (size + 255) / 256 * 256
  }

  /** The twelve requests of one layer over n tokens, in bytes and in order. */
  function LayerRequests(n: nat, sh: Shape): (r: seq<nat>)
    ensures |r| == 12
  {
    var h, q, kv, i := n * sh.hidden * SIZEOF_HALF, n * sh.q * SIZEOF_HALF, n * sh.kv * SIZEOF_HALF,
                       n * sh.intermediate * SIZEOF_HALF;
    [h, q, kv, kv, q, h, h, h, i, i, i, h]
  }

  predicate BatchedFits(capacity: int, n: nat, sh: Shape) {
    var perTokenBytes := (5 * sh.hidden + 2 * sh.q + 2 * sh.kv + 3 * sh.intermediate) * SIZEOF_HALF;
    var xBatchBytes := n * sh.hidden * SIZEOF_HALF;
    var batchedTotal := xBatchBytes + n * perTokenBytes;
    capacity - batchedTotal >= BATCHED_SCRATCH_MARGIN
  }

  /** The first k requests together. */
  function SumTo(sizes: seq<nat>, k: nat): nat
    requires k <= |sizes|
  {
    if k == 0 then 0 else SumTo(sizes, k - 1) + sizes[k - 1]
  }

  /** Aligned to 256, inside [lo, hi), in order and therefore disjoint. */
  ghost predicate Laid(bufs: seq<Buffer>, sizes: seq<nat>, lo: int, hi: int) {
    && |bufs| == |sizes|
    && (forall k | 0 <= k < |bufs| ::
          bufs[k].size == sizes[k] && bufs[k].off % 256 == 0 && lo <= bufs[k].off && bufs[k].End() <= hi)
    && (forall j, k | 0 <= j < k < |bufs| :: bufs[j].End() <= bufs[k].off)
  }

  class ScratchPool {
    const capacity: nat
    var offset: int

    constructor (sizeBytes: nat)
      ensures capacity == sizeBytes && offset == 0
    {
      capacity, offset := sizeBytes, 0;
    }

    method Get(size: nat) returns (r: Option<Buffer>)
      modifies this
      ensures r.Some? <==> old(offset) + AlignUp(size) <= capacity
      ensures r.Some? ==> r.value == Buffer(old(offset), size) && offset == old(offset) + AlignUp(size)
      ensures r.None? ==> offset == old(offset)
      ensures old(offset) % 256 == 0 ==> offset % 256 == 0
    {
      AlignedSum(offset, AlignUp(size));
      var aligned := AlignUp(size);
      if offset + aligned > capacity {
        return None;
      }
      var off := offset;
      offset := offset + aligned;
      return Some(Buffer(off, size));
    }

    method Reset()
      modifies this
      ensures offset == 0
    {
      offset := 0;
    }

    method RewindTo(savedOffset: int)
      modifies this
      ensures offset == if 0 <= savedOffset <= capacity then savedOffset else old(offset)
    {
      if savedOffset < 0 || savedOffset > capacity {
        return;
      }
      offset := savedOffset;
    }

    /** The requests in order; each costs at most 255 bytes of padding. */
    method GetAll(sizes: seq<nat>) returns (bufs: seq<Buffer>, ok: bool)
      requires 0 <= offset <= capacity && offset % 256 == 0
      modifies this
      ensures old(offset) + SumTo(sizes, |sizes|) + 255 * |sizes| <= capacity ==> ok
      ensures ok ==> Laid(bufs, sizes, old(offset), offset) && offset <= capacity
    {
      bufs, ok := [], true;
      for k := 0 to |sizes|
        invariant ok && offset % 256 == 0 && old(offset) <= offset <= capacity
        invariant offset <= old(offset) + SumTo(sizes, k) + 255 * k
        invariant Laid(bufs, sizes[..k], old(offset), offset)
      {
        SumGrows(sizes, k + 1, |sizes|);
        var buf := Get(sizes[k]);
        if buf.None? {
          return bufs, false;
        }
        LaidAppend(bufs, sizes, k, old(offset), buf.value, offset);
        bufs := bufs + [buf.value];
      }
      assert sizes[..|sizes|] == sizes;
    }

    /**
     The scratch side of a layer-major prefill of mTokens of an nTokens prompt: the activation
     buffer, then per layer a mark, twelve requests and a rewind. `layers` collects what each got.
     */
    method PrefillBuffers(nLayers: nat, nTokens: nat, mTokens: nat, sh: Shape)
      returns (ok: bool, xBatch: Buffer, layers: seq<seq<Buffer>>)
      requires mTokens <= nTokens && BatchedFits(capacity, nTokens, sh)
      modifies this
      ensures ok && |layers| == nLayers
      ensures xBatch == Buffer(0, mTokens * sh.hidden * SIZEOF_HALF)
      ensures forall l | 0 <= l < nLayers :: Laid(layers[l], LayerRequests(mTokens, sh), xBatch.End(), capacity)
      ensures offset == AlignUp(xBatch.size)
    {
      Reset();
      RequestsFit(capacity, nTokens, mTokens, sh);
      var x := Get(mTokens * sh.hidden * SIZEOF_HALF);
      xBatch, layers := x.value, [];
      for l := 0 to nLayers
        invariant offset == AlignUp(xBatch.size) && |layers| == l
        invariant forall j | 0 <= j < l :: Laid(layers[j], LayerRequests(mTokens, sh), xBatch.End(), capacity)
      {
        var snapshot := offset;
        var bufs, got := GetAll(LayerRequests(mTokens, sh));
        if !got {
          return false, xBatch, layers;
        }
        RewindTo(snapshot);
        layers := layers + [bufs];
      }
      ok := true;
    }
  }

  lemma AlignedSum(a: int, b: int)
    requires b % 256 == 0
    ensures a % 256 == 0 ==> (a + b) % 256 == 0
  {
  }

  lemma LaidAppend(bufs: seq<Buffer>, sizes: seq<nat>, k: nat, lo: int, buf: Buffer, hi: int)
    requires k < |sizes| && Laid(bufs, sizes[..k], lo, buf.off)
    requires buf.size == sizes[k] && buf.off % 256 == 0 && lo <= buf.off && buf.End() <= hi
    ensures Laid(bufs + [buf], sizes[..k + 1], lo, hi)
  {
  }

  lemma SumGrows(sizes: seq<nat>, j: nat, k: nat)
    requires j <= k <= |sizes|
    ensures SumTo(sizes, j) <= SumTo(sizes, k)
    decreases k
  {
    if j < k {
      SumGrows(sizes, j, k - 1);
    }
  }

  lemma LayerSum(n: nat, sh: Shape)
    ensures SumTo(LayerRequests(n, sh), 12) == n * ((5 * sh.hidden + 2 * sh.q + 2 * sh.kv + 3 * sh.intermediate) * SIZEOF_HALF)
  {
    var r := LayerRequests(n, sh);
    var h, q, kv, i := n * sh.hidden * SIZEOF_HALF, n * sh.q * SIZEOF_HALF, n * sh.kv * SIZEOF_HALF,
                       n * sh.intermediate * SIZEOF_HALF;
    SumOf12(r);
    assert SumTo(r, 12) == 5 * h + 2 * q + 2 * kv + 3 * i;
    assert n * ((5 * sh.hidden + 2 * sh.q + 2 * sh.kv + 3 * sh.intermediate) * SIZEOF_HALF)
        == 5 * (n * sh.hidden * 2) + 2 * (n * sh.q * 2) + 2 * (n * sh.kv * 2) + 3 * (n * sh.intermediate * 2);
  }

  lemma SumOf12(r: seq<nat>)
    requires |r| == 12
    ensures SumTo(r, 12) == r[0] + r[1] + r[2] + r[3] + r[4] + r[5] + r[6] + r[7] + r[8] + r[9] + r[10] + r[11]
  {
    assert SumTo(r, 1) == r[0];
    assert SumTo(r, 2) == r[0] + r[1];
    assert SumTo(r, 4) == SumTo(r, 2) + r[2] + r[3];
    assert SumTo(r, 6) == SumTo(r, 4) + r[4] + r[5];
    assert SumTo(r, 8) == SumTo(r, 6) + r[6] + r[7];
    assert SumTo(r, 10) == SumTo(r, 8) + r[8] + r[9];
  }

  /** Thirteen paddings stay far below the margin, so the aligned requests of any layer fit. */
  lemma RequestsFit(capacity: int, n: nat, m: nat, sh: Shape)
    requires m <= n && BatchedFits(capacity, n, sh)
    ensures AlignUp(m * sh.hidden * SIZEOF_HALF) + SumTo(LayerRequests(m, sh), 12) + 255 * 12 <= capacity
  {
    var per := (5 * sh.hidden + 2 * sh.q + 2 * sh.kv + 3 * sh.intermediate) * SIZEOF_HALF;
    LayerSum(m, sh);
    MulMono(m, n, per);
    MulMono(m, n, sh.hidden);
  }
}
