/**
 The two prefill schedules over the pool: layer by layer over a batch of rows, and token by token
 through all layers. Both are proved to leave in the pool, at every layer and position, exactly the
 rows of the reference, and to return its final hidden states.
 */
module Schedule {
  import opened Common
  import opened KvPool
  import opened KvPack
  import opened KvCache
  import opened Transformer

  /** How far a pass over the positions has come. */
  datatype Progress =
    | LayerMajor(l: nat, p: nat)   // at position p of layer l, layers below done
    | TokenMajor(p: nat, l: nat)   // at layer l of position p, positions below done
    | Complete
  {
    predicate Done(slot: Slot) {
      match this
      case LayerMajor(l, p) => slot.layer < l || (slot.layer == l && slot.pos < p)
      case TokenMajor(p, l) => slot.pos < p || (slot.pos == p && slot.layer < l)
      case Complete => true
    }
  }

  /** The pool as `pr` saw it, except that the slots already done hold the reference's rows. */
  ghost predicate Holds(m: Model, pr: Prior, ts: seq<Token>, pool: seq<byte>, at: Progress) {
    forall slot: Slot | InShape(m.nLayers, pr.ctx, slot) :: Expected(m, pr, ts, pool, slot, at.Done(slot))
  }

  ghost predicate Expected(m: Model, pr: Prior, ts: seq<Token>, pool: seq<byte>, slot: Slot, done: bool) {
    At(pool, pr.ctx, pr.width, slot)
      == if done && slot.pos < |ts| then KvRow(m, pr, ts, slot.layer, slot.isValue, slot.pos) else pr.Row(slot)
  }

  /** The final state of a prefill of `ts`: every position of the prompt, at every layer, and no other. */
  ghost predicate Prefilled(m: Model, pr: Prior, ts: seq<Token>, pool: seq<byte>) {
    |pool| == |pr.pool| && Holds(m, pr, ts, pool, Complete)
  }

  /** A prefill leaves one possible pool behind. */
  lemma PrefilledIsUnique(m: Model, pr: Prior, ts: seq<Token>, a: seq<byte>, b: seq<byte>)
    requires Prefilled(m, pr, ts, a) && Prefilled(m, pr, ts, b)
    requires |pr.pool| == m.nLayers * (2 * pr.ctx) * pr.width
    ensures a == b
  {
    forall slot: Slot | InShape(m.nLayers, pr.ctx, slot)
      ensures At(a, pr.ctx, pr.width, slot) == At(b, pr.ctx, pr.width, slot)
    {
      assert Expected(m, pr, ts, a, slot, true) && Expected(m, pr, ts, b, slot, true);
    }
    RowsDetermine(m.nLayers, pr.ctx, pr.width, a, b);
  }

  /** With positions [0, p] of layer l in place, the layer maps reference input to reference output. */
  lemma LayerStep(m: Model, pr: Prior, ts: seq<Token>, pool: seq<byte>, at: Progress, l: nat, p: nat)
    requires l < m.nLayers && pr.start <= p < |ts| && p < pr.ctx
    requires Holds(m, pr, ts, pool, at)
    requires forall v: bool, i: nat | pr.start <= i <= p :: at.Done(Slot(l, v, i))
    ensures var x := Hidden(m, pr, ts, l, p);
            LayerOut(m, l, p, x, PoolRows(pool, pr.ctx, pr.width, l, false, p + 1),
                     PoolRows(pool, pr.ctx, pr.width, l, true, p + 1)) == Hidden(m, pr, ts, l + 1, p)
  {
    forall v: bool, i: nat | i < p + 1
      ensures At(pool, pr.ctx, pr.width, Slot(l, v, i)) == KvRow(m, pr, ts, l, v, i)
    {
      assert Expected(m, pr, ts, pool, Slot(l, v, i), at.Done(Slot(l, v, i)));
    }
    PoolRowsAreRows(m, pr, ts, pool, pr.ctx, pr.width, l, false, p + 1);
    PoolRowsAreRows(m, pr, ts, pool, pr.ctx, pr.width, l, true, p + 1);
  }

  // ---- A batch of rows, one per position from the prior's start ----

  /** The inputs of layer l at every position of the batch. */
  ghost function HiddenRows(m: Model, pr: Prior, ts: seq<Token>, l: nat): (xs: seq<Vec>)
    requires pr.start <= |ts|
    ensures |xs| == |ts| - pr.start
    ensures forall i | 0 <= i < |xs| :: xs[i] == Hidden(m, pr, ts, l, pr.start + i)
  {
    seq(|ts| - pr.start, i requires 0 <= i < |ts| - pr.start => Hidden(m, pr, ts, l, pr.start + i))
  }

  /** The norms and projections of the whole batch. */
  function ProjectBatch(m: Model, l: nat, start: nat, xs: seq<Vec>): (qs: seq<Qkv>)
    ensures |qs| == |xs|
  {
    seq(|xs|, i requires 0 <= i < |xs| => m.qkv(l, xs[i], start + i))
  }

  /** All queries in one launch, query i reading positions [0, start + i]. */
  function AttendBatch(m: Model, l: nat, start: nat, qs: seq<Qkv>, pool: seq<byte>, ctx: nat): (mixed: seq<Vec>)
    ensures |mixed| == |qs|
  {
    seq(|qs|, i requires 0 <= i < |qs| =>
      m.attn(l, qs[i].q, PoolRows(pool, ctx, m.width, l, false, start + i + 1),
             PoolRows(pool, ctx, m.width, l, true, start + i + 1)))
  }

  /** Output projection, residuals and feed-forward, row by row. */
  function FinishBatch(m: Model, l: nat, xs: seq<Vec>, mixed: seq<Vec>): (ys: seq<Vec>)
    requires |mixed| == |xs|
    ensures |ys| == |xs|
  {
    seq(|xs|, i requires 0 <= i < |xs| => m.tail(l, xs[i], mixed[i]))
  }

  /** Once a layer's rows are all stored, the batch passes from reference input to reference output. */
  lemma BatchStep(m: Model, pr: Prior, ts: seq<Token>, pool: seq<byte>, l: nat)
    requires l < m.nLayers && pr.start < |ts| <= pr.ctx && pr.width == m.width
    requires Holds(m, pr, ts, pool, LayerMajor(l, |ts|))
    ensures var xs := HiddenRows(m, pr, ts, l);
            var qs := ProjectBatch(m, l, pr.start, xs);
            FinishBatch(m, l, xs, AttendBatch(m, l, pr.start, qs, pool, pr.ctx)) == HiddenRows(m, pr, ts, l + 1)
  {
    var xs := HiddenRows(m, pr, ts, l);
    var ys := FinishBatch(m, l, xs, AttendBatch(m, l, pr.start, ProjectBatch(m, l, pr.start, xs), pool, pr.ctx));
    forall i | 0 <= i < |xs| ensures ys[i] == HiddenRows(m, pr, ts, l + 1)[i] {
      BatchRow(m, l, pr.start, xs, pool, pr.ctx, i);
      assert xs[i] == Hidden(m, pr, ts, l, pr.start + i);
      LayerStep(m, pr, ts, pool, LayerMajor(l, |ts|), l, pr.start + i);
    }
  }

  lemma BatchRow(m: Model, l: nat, start: nat, xs: seq<Vec>, pool: seq<byte>, ctx: nat, i: nat)
    requires i < |xs|
    ensures FinishBatch(m, l, xs, AttendBatch(m, l, start, ProjectBatch(m, l, start, xs), pool, ctx))[i]
         == LayerOut(m, l, start + i, xs[i], PoolRows(pool, ctx, m.width, l, false, start + i + 1),
                     PoolRows(pool, ctx, m.width, l, true, start + i + 1))
  {
  }

  /** The embeddings of the batch are the inputs of layer 0. */
  function EmbedBatch(m: Model, ts: seq<Token>, start: nat): (xs: seq<Vec>)
    requires start <= |ts|
    ensures |xs| == |ts| - start
  {
    seq(|ts| - start, i requires 0 <= i < |ts| - start => m.embed(ts[start + i]))
  }

  lemma EmbedIsHidden(m: Model, pr: Prior, ts: seq<Token>)
    requires pr.start <= |ts|
    ensures EmbedBatch(m, ts, pr.start) == HiddenRows(m, pr, ts, 0)
  {
    forall i | 0 <= i < |ts| - pr.start ensures EmbedBatch(m, ts, pr.start)[i] == HiddenRows(m, pr, ts, 0)[i] {
    }
  }

  /** Storing the key and value of (l, p), computed from the reference input, marks them done. */
  lemma StoreStep(m: Model, pr: Prior, ts: seq<Token>, pool: seq<byte>, next: seq<byte>, at: Progress,
                  at': Progress, l: nat, p: nat)
    requires l < m.nLayers && pr.start <= p < |ts| && p < pr.ctx && Holds(m, pr, ts, pool, at)
    requires var out := m.qkv(l, Hidden(m, pr, ts, l, p), p);
             forall slot: Slot | slot.pos < pr.ctx ::
               (At(next, pr.ctx, pr.width, slot)
                 == if slot == Slot(l, false, p) then out.k else if slot == Slot(l, true, p) then out.v
                    else At(pool, pr.ctx, pr.width, slot))
    requires forall slot: Slot | InShape(m.nLayers, pr.ctx, slot) ::
               at'.Done(slot) <==> at.Done(slot) || (slot.layer == l && slot.pos == p)
    ensures Holds(m, pr, ts, next, at')
  {
    forall slot: Slot | InShape(m.nLayers, pr.ctx, slot)
      ensures Expected(m, pr, ts, next, slot, at'.Done(slot))
    {
      assert Expected(m, pr, ts, pool, slot, at.Done(slot));
    }
  }

  /** Before anything is stored, marking positions the prior already covers changes nothing. */
  lemma NothingStored(m: Model, pr: Prior, ts: seq<Token>, pool: seq<byte>, at: Progress, at': Progress)
    requires Holds(m, pr, ts, pool, at)
    requires forall slot: Slot | InShape(m.nLayers, pr.ctx, slot) && slot.pos < |ts| && slot.pos >= pr.start ::
               at'.Done(slot) <==> at.Done(slot)
    ensures Holds(m, pr, ts, pool, at')
  {
    forall slot: Slot | InShape(m.nLayers, pr.ctx, slot) ensures Expected(m, pr, ts, pool, slot, at'.Done(slot)) {
      assert Expected(m, pr, ts, pool, slot, at.Done(slot));
    }
  }

  class Runner {
    const m: Model
    const kv: KVCachePool

    constructor (m: Model, kv: KVCachePool)
      requires m.Valid() && kv.Valid() && kv.cfg.nLayers == m.nLayers && kv.cfg.HalfBytes() == m.width
      ensures this.m == m && this.kv == kv && Valid()
    {
      this.m, this.kv := m, kv;
    }

    ghost predicate Valid() {
      m.Valid() && kv.Valid() && kv.cfg.nLayers == m.nLayers && kv.cfg.HalfBytes() == m.width
    }

    /** The pool as it is now, trusted below `start`. */
    ghost function Now(start: nat): (pr: Prior)
      reads kv.gpuPool
    {
      Prior(kv.gpuPool[..], kv.cfg.maxContext, m.width, start)
    }

    /** One token through one layer: project, store its key and value, attend to [0, pos], finish. */
    method TransformerLayer(layer: nat, pos: nat, x: Vec) returns (y: Vec)
      requires Valid() && layer < m.nLayers && pos < kv.cfg.maxContext
      modifies kv.gpuPool
      ensures var out := m.qkv(layer, x, pos);
              forall slot: Slot | slot.pos < kv.cfg.maxContext ::
                (At(kv.gpuPool[..], kv.cfg.maxContext, m.width, slot)
                  == if slot == Slot(layer, false, pos) then out.k else if slot == Slot(layer, true, pos) then out.v
                     else At(old(kv.gpuPool[..]), kv.cfg.maxContext, m.width, slot))
      ensures y == LayerOut(m, layer, pos, x,
                            PoolRows(kv.gpuPool[..], kv.cfg.maxContext, m.width, layer, false, pos + 1),
                            PoolRows(kv.gpuPool[..], kv.cfg.maxContext, m.width, layer, true, pos + 1))
    {
      var out := m.qkv(layer, x, pos);
      kv.Store(layer, pos, out.k, out.v);
      var a := m.attn(layer, out.q,
                      PoolRows(kv.gpuPool[..], kv.cfg.maxContext, m.width, layer, false, pos + 1),
                      PoolRows(kv.gpuPool[..], kv.cfg.maxContext, m.width, layer, true, pos + 1));
      y := m.tail(layer, x, a);
    }

    /** One token through all layers, as in per-token prefill and in every decode step. */
    method ForwardToken(token: Token, pos: nat, ghost pr: Prior, ghost ts: seq<Token>) returns (x: Vec)
      requires Valid() && pr.start <= pos < |ts| && ts[pos] == token && pos < kv.cfg.maxContext
      requires pr.ctx == kv.cfg.maxContext && pr.width == m.width
      requires Holds(m, pr, ts, kv.gpuPool[..], TokenMajor(pos, 0))
      modifies kv.gpuPool
      ensures Holds(m, pr, ts, kv.gpuPool[..], TokenMajor(pos + 1, 0))
      ensures x == Hidden(m, pr, ts, m.nLayers, pos)
    {
      hide Holds, At, PoolRows, LayerOut;
      x := m.embed(token);
      for l := 0 to m.nLayers
        invariant Holds(m, pr, ts, kv.gpuPool[..], TokenMajor(pos, l))
        invariant x == Hidden(m, pr, ts, l, pos)
      {
        ghost var before := kv.gpuPool[..];
        x := TransformerLayer(l, pos, x);
        StoreStep(m, pr, ts, before, kv.gpuPool[..], TokenMajor(pos, l), TokenMajor(pos, l + 1), l, pos);
        LayerStep(m, pr, ts, kv.gpuPool[..], TokenMajor(pos, l + 1), l, pos);
      }
      NothingStored(m, pr, ts, kv.gpuPool[..], TokenMajor(pos, m.nLayers), TokenMajor(pos + 1, 0));
    }

    /** Token-outer, layer-inner prefill of positions [start, |ts|). */
    method PrefillPerToken(ts: seq<Token>, start: nat) returns (last: Vec)
      requires Valid() && start < |ts| <= kv.cfg.maxContext
      modifies kv.gpuPool
      ensures Prefilled(m, old(Now(start)), ts, kv.gpuPool[..])
      ensures last == Hidden(m, old(Now(start)), ts, m.nLayers, |ts| - 1)
    {
      ghost var pr := Now(start);
      assert Holds(m, pr, ts, kv.gpuPool[..], TokenMajor(start, 0));
      last := [];
      for i := start to |ts|
        invariant Holds(m, pr, ts, kv.gpuPool[..], TokenMajor(i, 0))
        invariant i > start ==> last == Hidden(m, pr, ts, m.nLayers, i - 1)
      {
        last := ForwardToken(ts[i], i, pr, ts);
      }
      NothingStored(m, pr, ts, kv.gpuPool[..], TokenMajor(|ts|, 0), Complete);
    }

    /** Every key and value of the batch goes into the pool before any query reads. */
    method StoreBatch(layer: nat, start: nat, qkvBatch: seq<Qkv>, ghost pr: Prior, ghost ts: seq<Token>)
      requires Valid() && layer < m.nLayers && start < |ts| <= kv.cfg.maxContext
      requires pr.ctx == kv.cfg.maxContext && pr.width == m.width && pr.start == start
      requires Holds(m, pr, ts, kv.gpuPool[..], LayerMajor(layer, 0))
      requires qkvBatch == ProjectBatch(m, layer, start, HiddenRows(m, pr, ts, layer))
      modifies kv.gpuPool
      ensures Holds(m, pr, ts, kv.gpuPool[..], LayerMajor(layer, |ts|))
    {
      hide Holds, At;
      NothingStored(m, pr, ts, kv.gpuPool[..], LayerMajor(layer, 0), LayerMajor(layer, start));
      for i := 0 to |qkvBatch|
        invariant Holds(m, pr, ts, kv.gpuPool[..], LayerMajor(layer, start + i))
      {
        ghost var before := kv.gpuPool[..];
        assert qkvBatch[i] == m.qkv(layer, Hidden(m, pr, ts, layer, start + i), start + i);
        kv.Store(layer, start + i, qkvBatch[i].k, qkvBatch[i].v);
        StoreStep(m, pr, ts, before, kv.gpuPool[..], LayerMajor(layer, start + i),
                  LayerMajor(layer, start + i + 1), layer, start + i);
      }
    }

    /** One layer over the whole batch: all keys and values first, then all queries, rows in place. */
    method TransformerPrefill(layer: nat, start: nat, xBatch: array<Vec>, ghost pr: Prior, ghost ts: seq<Token>)
      requires Valid() && layer < m.nLayers && start < |ts| <= kv.cfg.maxContext
      requires pr.ctx == kv.cfg.maxContext && pr.width == m.width && pr.start == start
      requires Holds(m, pr, ts, kv.gpuPool[..], LayerMajor(layer, 0))
      requires xBatch[..] == HiddenRows(m, pr, ts, layer)
      modifies kv.gpuPool, xBatch
      ensures Holds(m, pr, ts, kv.gpuPool[..], LayerMajor(layer + 1, 0))
      ensures xBatch[..] == HiddenRows(m, pr, ts, layer + 1)
    {
      var xs := xBatch[..];
      var qkvBatch := ProjectBatch(m, layer, start, xs);
      StoreBatch(layer, start, qkvBatch, pr, ts);
      var attnBatch := AttendBatch(m, layer, start, qkvBatch, kv.gpuPool[..], kv.cfg.maxContext);
      var ys := FinishBatch(m, layer, xs, attnBatch);
      BatchStep(m, pr, ts, kv.gpuPool[..], layer);
      NothingStored(m, pr, ts, kv.gpuPool[..], LayerMajor(layer, |ts|), LayerMajor(layer + 1, 0));
      Overwrite(xBatch, ys);
    }

    method Overwrite(xBatch: array<Vec>, ys: seq<Vec>)
      requires xBatch.Length == |ys|
      modifies xBatch
      ensures xBatch[..] == ys
    {
      forall i | 0 <= i < |ys| {
        xBatch[i] := ys[i];
      }
    }

    /** Layer-outer, token-inner prefill of positions [start, |ts|). */
    method PrefillBatched(ts: seq<Token>, start: nat) returns (last: Vec)
      requires Valid() && start < |ts| <= kv.cfg.maxContext
      modifies kv.gpuPool
      ensures Prefilled(m, old(Now(start)), ts, kv.gpuPool[..])
      ensures last == Hidden(m, old(Now(start)), ts, m.nLayers, |ts| - 1)
    {
      ghost var pr := Now(start);
      var n := |ts| - start;
      var xBatch := new Vec[n](_ => []);
      Overwrite(xBatch, EmbedBatch(m, ts, start));
      EmbedIsHidden(m, pr, ts);
      for l := 0 to m.nLayers
        invariant Holds(m, pr, ts, kv.gpuPool[..], LayerMajor(l, 0))
        invariant xBatch[..] == HiddenRows(m, pr, ts, l)
      {
        TransformerPrefill(l, start, xBatch, pr, ts);
      }
      NothingStored(m, pr, ts, kv.gpuPool[..], LayerMajor(m.nLayers, 0), Complete);
      last := xBatch[..][n - 1];
    }
  }

  /** The loop interchange: from equal pools, both schedules leave equal pools and equal hidden states. */
  method SchedulesAgree(a: Runner, b: Runner, ts: seq<Token>, start: nat) returns (lastA: Vec, lastB: Vec)
    requires a.Valid() && b.Valid() && a.m == b.m && a.kv.cfg == b.kv.cfg && a.kv.gpuPool != b.kv.gpuPool
    requires a.kv.gpuPool[..] == b.kv.gpuPool[..] && start < |ts| <= a.kv.cfg.maxContext
    modifies a.kv.gpuPool, b.kv.gpuPool
    ensures a.kv.gpuPool[..] == b.kv.gpuPool[..] && lastA == lastB
  {
    ghost var pr := a.Now(start);
    assert pr == b.Now(start);
    lastA := a.PrefillBatched(ts, start);
    lastB := b.PrefillPerToken(ts, start);
    PrefilledIsUnique(a.m, pr, ts, a.kv.gpuPool[..], b.kv.gpuPool[..]);
  }
}
